// Reading the text of an SVG back: tags, attributes by name, decimal numbers, and the picture they
// describe. The two renderers are judged by what is read from the text they return.
module SvgText {
  import opened Wrappers
  import Hex
  import opened Svg
  import opened OnchainSvg

  // ----- A reader for tags

  datatype Tag = Tag(name: string, attributes: map<string, string>)

  datatype Attributes = Attributes(values: map<string, string>, rest: string)

  // The text before the first of the given characters.
  function Until(s: string, stop: set<char>): (before: string)
    ensures before <= s
    ensures forall c <- before :: c !in stop
    ensures |before| < |s| ==> s[|before|] in stop
  {
    if s == "" || s[0] in stop then ""
    else
      var before := Until(s[1..], stop);
      assert [s[0]] + s[1..] == s;
      [s[0]] + before
  }

  // Name, equals sign and quoted value, until the tag ends; no name may come twice.
  function ReadAttributes(s: string): (r: Option<Attributes>)
    ensures r.Some? ==> |r.value.rest| < |s|
    decreases |s|
  {
    if s == "" then None
    else if s[0] == ' ' then ReadAttributes(s[1..])
    else if s[0] == '>' then Some(Attributes(map[], s[1..]))
    else if "/>" <= s then Some(Attributes(map[], s[2..]))
    else
      var name := Until(s, {'='});
      var quoted := s[|name|..];
      if !("=\"" <= quoted) then None
      else
        var value := Until(quoted[2..], {'"'});
        var after := quoted[2 + |value|..];
        if after == "" then None
        else
          match ReadAttributes(after[1..])
          case None => None
          case Some(more) => if name in more.values then None else Some(more.(values := more.values[name := value]))
  }

  // A closing tag is read as one whose name begins with a slash.
  function ReadTags(s: string): Option<seq<Tag>>
    decreases |s|
  {
    if s == "" then Some([])
    else if s[0] != '<' then None
    else
      var name := Until(s[1..], {' ', '>'});
      match ReadAttributes(s[1 + |name|..])
      case None => None
      case Some(attributes) =>
        match ReadTags(attributes.rest)
        case None => None
        case Some(tags) => Some([Tag(name, attributes.values)] + tags)
  }

  // ----- The picture the tags describe

  function ReadDecimal(s: string): Option<nat> {
    if s == "" || !('0' <= s[|s| - 1] <= '9') then None
    else
      var last := s[|s| - 1] as int - '0' as int;
      if |s| == 1 then Some(last)
      else
        match ReadDecimal(s[..|s| - 1])
        case None => None
        case Some(front) => Some(10 * front + last)
  }

  datatype Key = Width | Height | X | Y | Fill | ViewBox | Namespace | Rendering

  function Name(k: Key): string {
    match k
    case Width => "width"
    case Height => "height"
    case X => "x"
    case Y => "y"
    case Fill => "fill"
    case ViewBox => "viewBox"
    case Namespace => "xmlns"
    case Rendering => "shape-rendering"
  }

  function Get(t: Tag, k: Key): Option<string> {
    if Name(k) in t.attributes then Some(t.attributes[Name(k)]) else None
  }

  function Number(t: Tag, k: Key): Option<nat> {
    match Get(t, k)
    case None => None
    case Some(value) => ReadDecimal(value)
  }

  // A colour stands after a hash sign.
  function Color(t: Tag): Option<string> {
    match Get(t, Fill)
    case None => None
    case Some(value) => if "#" <= value then Some(value[1..]) else None
  }

  // A filled rectangle, in pixels.
  datatype Box = Box(width: nat, height: nat, x: nat, y: nat, fill: string)

  datatype Picture = Picture(width: nat, height: nat, viewBox: string, background: string, boxes: seq<Box>)

  function ReadBox(t: Tag): Option<Box> {
    if t.name != "rect" then None
    else
      match (Number(t, Width), Number(t, Height), Number(t, X), Number(t, Y), Color(t))
      case (Some(width), Some(height), Some(x), Some(y), Some(fill)) => Some(Box(width, height, x, y, fill))
      case _ => None
  }

  function ReadBoxes(tags: seq<Tag>): Option<seq<Box>> {
    if tags == [] then Some([])
    else
      match (ReadBox(tags[0]), ReadBoxes(tags[1..]))
      case (Some(box), Some(boxes)) => Some([box] + boxes)
      case _ => None
  }

  // The whole canvas in one colour.
  function ReadBackground(t: Tag): Option<string> {
    if t.name == "rect" && Get(t, Width) == Some("100%") && Get(t, Height) == Some("100%") then Color(t) else None
  }

  // An svg tag, a background, any number of boxes and the closing tag.
  function ReadPicture(text: string): Option<Picture> {
    match ReadTags(text)
    case None => None
    case Some(tags) =>
      if |tags| < 3 || tags[0].name != "svg" || tags[|tags| - 1].name != "/svg" then None
      else
        match (Number(tags[0], Width), Number(tags[0], Height), Get(tags[0], ViewBox),
               ReadBackground(tags[1]), ReadBoxes(tags[2..|tags| - 1]))
        case (Some(width), Some(height), Some(viewBox), Some(background), Some(boxes)) =>
          Some(Picture(width, height, viewBox, background, boxes))
        case _ => None
  }

  // ----- What a picture shows, pixel by pixel

  predicate Inside(b: Box, px: nat, py: nat) {
    b.x <= px < b.x + b.width && b.y <= py < b.y + b.height
  }

  // The fill of the last box over a pixel; None is the background.
  function PixelShown(boxes: seq<Box>, px: nat, py: nat): Option<string> {
    if boxes == [] then None
    else
      var n := |boxes| - 1;
      if Inside(boxes[n], px, py) then Some(boxes[n].fill) else PixelShown(boxes[..n], px, py)
  }

  // Cells are ten pixels wide and high.
  function Boxes(rects: seq<SvgRect>): seq<Box> {
    seq(|rects|, k requires 0 <= k < |rects| => Box(10 * rects[k].width, 10, 10 * rects[k].x, 10 * rects[k].y, rects[k].fill))
  }

  lemma {:induction false} PixelsShowCells(rects: seq<SvgRect>, px: nat, py: nat)
    ensures PixelShown(Boxes(rects), px, py) == Shown(rects, px / 10, py / 10)
  {
    if rects != [] {
      var n := |rects| - 1;
      assert Boxes(rects)[..n] == Boxes(rects[..n]);
      PixelsShowCells(rects[..n], px, py);
      PixelInCell(rects[n], px, py);
    }
  }

  lemma PixelInCell(r: SvgRect, px: nat, py: nat)
    ensures Inside(Box(10 * r.width, 10, 10 * r.x, 10 * r.y, r.fill), px, py) <==> Covers(r, px / 10, py / 10)
  {
  }

  // ----- Numbers

  lemma {:induction false} DecimalReads(n: nat)
    ensures Decimal(n) != "" && ReadDecimal(Decimal(n)) == Some(n)
    ensures forall c <- Decimal(n) :: '0' <= c <= '9'
  {
    DigitReads(n % 10);
    if n >= 10 {
      DecimalReads(n / 10);
      var s := Decimal(n);
      assert s[..|s| - 1] == Decimal(n / 10);
    }
  }

  lemma DigitReads(n: nat)
    requires n < 10
    ensures '0' <= Hex.DIGITS[n] <= '9' && Hex.DIGITS[n] as int - '0' as int == n
  {
  }

  // ----- Attributes

  // The text has no double quote, so that it can stand in an attribute.
  predicate Plain(s: string) {
    '"' !in s
  }

  lemma {:induction false} UntilFound(before: string, stop: set<char>, after: string)
    requires (forall c <- before :: c !in stop) && after != "" && after[0] in stop
    ensures Until(before + after, stop) == before
  {
    if before == "" {
      assert before + after == after;
    } else {
      assert (before + after)[1..] == before[1..] + after;
      UntilFound(before[1..], stop, after);
    }
  }

  // A space, the name, the equals sign and the opening quote.
  function Lead(k: Key): string {
    " " + Name(k) + "=\""
  }

  const QUOTE: string := "\""

  // One attribute and what follows it.
  function Attribute(k: Key, value: string, rest: string): string {
    Lead(k) + (value + (QUOTE + rest))
  }

  lemma NamesDiffer(k: Key)
    ensures Name(k) != "" && Name(k)[0] != ' ' && Name(k)[0] != '>' && Name(k)[0] != '/' && '=' !in Name(k)
    ensures forall l: Key :: Name(l) == Name(k) ==> l == k
  {
  }

  lemma NamedReads(name: string, value: string, rest: string)
    requires name != "" && name[0] != ' ' && name[0] != '>' && name[0] != '/' && '=' !in name && Plain(value)
    ensures ReadAttributes(name + ("=\"" + (value + (QUOTE + rest)))) ==
            match ReadAttributes(rest)
            case None => None
            case Some(more) => if name in more.values then None else Some(more.(values := more.values[name := value]))
  {
    var quote := QUOTE + rest;
    var quoted := "=\"" + (value + quote);
    var s := name + quoted;
    UntilFound(name, {'='}, quoted);
    UntilFound(value, {'"'}, quote);
    assert s[|name|..] == quoted && quoted[2..] == value + quote;
    assert quoted[2 + |value|..] == quote && quote[1..] == rest;
    hide Until;
  }

  lemma SpaceReads(rest: string)
    ensures ReadAttributes(" " + rest) == ReadAttributes(rest)
  {
    assert (" " + rest)[1..] == rest;
  }

  lemma EndReads(rest: string)
    ensures ReadAttributes(" />" + rest) == Some(Attributes(map[], rest))
    ensures ReadAttributes(">" + rest) == Some(Attributes(map[], rest))
  {
    assert " />" + rest == " " + ("/>" + rest);
    SpaceReads("/>" + rest);
    assert ("/>" + rest)[2..] == rest && (">" + rest)[1..] == rest;
  }

  lemma Regroup(a: string, b: string, c: string)
    ensures (a + b) + c == a + (b + c)
  {
  }

  lemma AttributeReads(k: Key, value: string, rest: string)
    requires Plain(value) && ReadAttributes(rest).Some? && Name(k) !in ReadAttributes(rest).value.values
    ensures var more := ReadAttributes(rest).value;
            ReadAttributes(Attribute(k, value, rest)) == Some(more.(values := more.values[Name(k) := value]))
  {
    hide ReadAttributes, Name;
    NamesDiffer(k);
    var quoted := value + (QUOTE + rest);
    Regroup(" " + Name(k), "=\"", quoted);
    Regroup(" ", Name(k), "=\"" + quoted);
    SpaceReads(Name(k) + ("=\"" + quoted));
    NamedReads(Name(k), value, rest);
  }

  predicate TagName(name: string) {
    ' ' !in name && '>' !in name
  }

  lemma TagNames()
    ensures TagName("svg") && TagName("rect") && TagName("/svg")
    ensures "<" + "svg" == "<svg" && "<" + "rect" == "<rect" && "<" + "/svg" + ">" == "</svg>"
  {
  }

  // A tag and what follows it.
  lemma TagReads(name: string, s: string)
    requires TagName(name) && s != "" && (s[0] == ' ' || s[0] == '>')
    ensures ReadTags("<" + name + s) ==
            match ReadAttributes(s)
            case None => None
            case Some(attributes) =>
              match ReadTags(attributes.rest)
              case None => None
              case Some(tags) => Some([Tag(name, attributes.values)] + tags)
  {
    var text := "<" + name + s;
    assert text[1..] == name + s;
    UntilFound(name, {' ', '>'}, s);
    assert text[1 + |name|..] == s;
    hide Until, ReadAttributes;
  }

  // ----- One rectangle

  function RectTag(width: string, x: string, y: string, fill: string): Tag {
    Tag("rect", map[Name(Fill) := "#" + fill][Name(Y) := y][Name(X) := x][Name(Height) := "10"][Name(Width) := width])
  }

  function RectAttributes(width: string, x: string, y: string, fill: string, rest: string): string {
    Attribute(Width, width, Attribute(Height, "10", Attribute(X, x, Attribute(Y, y, Attribute(Fill, "#" + fill, " />" + rest)))))
  }

  lemma RectLiterals()
    ensures "<rect width=\"" == "<rect" + Lead(Width)
    ensures "\" height=\"10\" x=\"" == QUOTE + (Lead(Height) + ("10" + (QUOTE + Lead(X))))
    ensures "\" y=\"" == QUOTE + Lead(Y)
    ensures "\" fill=\"#" == QUOTE + (Lead(Fill) + "#")
    ensures "\" />" == QUOTE + " />"
  {
  }

  lemma Unroll(p1: string, w: string, p2: string, x: string, p3: string, y: string, p4: string, f: string, p5: string, rest: string)
    ensures p1 + w + p2 + x + p3 + y + p4 + f + p5 + rest
         == p1 + (w + (p2 + (x + (p3 + (y + (p4 + (f + (p5 + rest))))))))
  {
    var e2 := p1 + w;
    var e3 := e2 + p2;
    var e4 := e3 + x;
    var e5 := e4 + p3;
    var e6 := e5 + y;
    var e7 := e6 + p4;
    var e8 := e7 + f;
    Regroup(e8, p5, rest);
    Regroup(e7, f, p5 + rest);
    Regroup(e6, p4, f + (p5 + rest));
    Regroup(e5, y, p4 + (f + (p5 + rest)));
    Regroup(e4, p3, y + (p4 + (f + (p5 + rest))));
    Regroup(e3, x, p3 + (y + (p4 + (f + (p5 + rest)))));
    Regroup(e2, p2, x + (p3 + (y + (p4 + (f + (p5 + rest))))));
    Regroup(p1, w, p2 + (x + (p3 + (y + (p4 + (f + (p5 + rest)))))));
  }

  // The literals of an element, split where the attributes meet.
  lemma Split(open: string, lw: string, w: string, lh: string, ten: string, lx: string, x: string, ly: string, y: string,
              lf: string, hash: string, f: string, end: string, rest: string)
    ensures (open + lw) + (w + ((QUOTE + (lh + (ten + (QUOTE + lx)))) + (x + ((QUOTE + ly) + (y + ((QUOTE + (lf + hash)) + (f + ((QUOTE + end) + rest))))))))
         == open + (lw + (w + (QUOTE + (lh + (ten + (QUOTE + (lx + (x + (QUOTE + (ly + (y + (QUOTE + (lf + ((hash + f) + (QUOTE + (end + rest))))))))))))))))
  {
    var r1 := QUOTE + (end + rest);
    Regroup(QUOTE, end, rest);
    Regroup(QUOTE, lf + hash, f + r1);
    Regroup(lf, hash, f + r1);
    Regroup(hash, f, r1);
    var r2 := QUOTE + (lf + ((hash + f) + r1));
    Regroup(QUOTE, ly, y + r2);
    var r3 := QUOTE + (ly + (y + r2));
    Regroup(QUOTE, lh + (ten + (QUOTE + lx)), x + r3);
    Regroup(lh, ten + (QUOTE + lx), x + r3);
    Regroup(ten, QUOTE + lx, x + r3);
    Regroup(QUOTE, lx, x + r3);
    var r4 := QUOTE + (lh + (ten + (QUOTE + (lx + (x + r3)))));
    Regroup(open, lw, w + r4);
  }

  lemma ElementForm(width: string, x: string, y: string, fill: string, rest: string)
    ensures Element(width, x, y, fill) + rest == "<rect" + RectAttributes(width, x, y, fill, rest)
  {
    hide Lead;
    RectLiterals();
    Unroll("<rect width=\"", width, "\" height=\"10\" x=\"", x, "\" y=\"", y, "\" fill=\"#", fill, "\" />", rest);
    Split("<rect", Lead(Width), width, Lead(Height), "10", Lead(X), x, Lead(Y), y, Lead(Fill), "#", fill, " />", rest);
  }

  lemma RectAttributesRead(width: string, x: string, y: string, fill: string, rest: string)
    requires Plain(width) && Plain(x) && Plain(y) && Plain(fill)
    ensures ReadAttributes(RectAttributes(width, x, y, fill, rest)) == Some(Attributes(RectTag(width, x, y, fill).attributes, rest))
  {
    hide ReadAttributes, Attribute, Name;
    NamesDiffer(Fill);
    NamesDiffer(Y);
    NamesDiffer(X);
    NamesDiffer(Height);
    NamesDiffer(Width);
    var f := Attribute(Fill, "#" + fill, " />" + rest);
    var fy := Attribute(Y, y, f);
    var fx := Attribute(X, x, fy);
    EndReads(rest);
    AttributeReads(Fill, "#" + fill, " />" + rest);
    AttributeReads(Y, y, f);
    AttributeReads(X, x, fy);
    AttributeReads(Height, "10", fx);
    AttributeReads(Width, width, Attribute(Height, "10", fx));
  }

  lemma LeadSpace(k: Key, value: string, rest: string)
    ensures Attribute(k, value, rest) != "" && Attribute(k, value, rest)[0] == ' '
  {
  }

  lemma ElementReads(width: string, x: string, y: string, fill: string, rest: string)
    requires Plain(width) && Plain(x) && Plain(y) && Plain(fill) && ReadTags(rest).Some?
    ensures ReadTags(Element(width, x, y, fill) + rest) == Some([RectTag(width, x, y, fill)] + ReadTags(rest).value)
  {
    hide ReadAttributes, ReadTags, Element, Attribute, Name;
    ElementForm(width, x, y, fill, rest);
    RectAttributesRead(width, x, y, fill, rest);
    var s := RectAttributes(width, x, y, fill, rest);
    LeadSpace(Width, width, Attribute(Height, "10", Attribute(X, x, Attribute(Y, y, Attribute(Fill, "#" + fill, " />" + rest)))));
    hide RectAttributes;
    TagNames();
    TagReads("rect", s);
  }

  // ----- All rectangles

  function RectTagOf(r: SvgRect): Tag {
    RectTag(Decimal(10 * r.width), Decimal(10 * r.x), Decimal(10 * r.y), r.fill)
  }

  function RectTags(rects: seq<SvgRect>): seq<Tag> {
    if rects == [] then [] else [RectTagOf(rects[0])] + RectTags(rects[1..])
  }

  ghost predicate PlainFills(rects: seq<SvgRect>) {
    forall k :: 0 <= k < |rects| ==> Plain(rects[k].fill)
  }

  lemma DecimalPlain(n: nat)
    ensures Plain(Decimal(n))
  {
    DecimalReads(n);
    hide Decimal;
  }

  lemma OneElementReads(r: SvgRect, rest: string)
    requires Plain(r.fill) && ReadTags(rest).Some?
    ensures ReadTags(ElementOf(r) + rest) == Some([RectTagOf(r)] + ReadTags(rest).value)
  {
    hide ReadTags, Element, Decimal, Plain, RectTag;
    DecimalPlain(10 * r.width);
    DecimalPlain(10 * r.x);
    DecimalPlain(10 * r.y);
    ElementReads(Decimal(10 * r.width), Decimal(10 * r.x), Decimal(10 * r.y), r.fill, rest);
  }

  lemma {:induction false} ElementsRead(rects: seq<SvgRect>, rest: string)
    requires PlainFills(rects) && ReadTags(rest).Some?
    ensures ReadTags(Elements(rects) + rest) == Some(RectTags(rects) + ReadTags(rest).value)
  {
    hide ReadTags, ElementOf, RectTagOf, Plain;
    if rects == [] {
      assert "" + rest == rest && [] + ReadTags(rest).value == ReadTags(rest).value;
    } else {
      ElementsRead(rects[1..], rest);
      OneElementReads(rects[0], Elements(rects[1..]) + rest);
      Regroup(ElementOf(rects[0]), Elements(rects[1..]), rest);
      var first, others, after := [RectTagOf(rects[0])], RectTags(rects[1..]), ReadTags(rest).value;
      assert (first + others) + after == first + (others + after);
    }
  }

  lemma BoxReads(r: SvgRect)
    ensures ReadBox(RectTagOf(r)) == Some(Box(10 * r.width, 10, 10 * r.x, 10 * r.y, r.fill))
  {
    DecimalReads(10 * r.width);
    DecimalReads(10 * r.x);
    DecimalReads(10 * r.y);
    TenReads();
    assert ("#" + r.fill)[1..] == r.fill;
    hide Decimal, ReadDecimal, Name;
    NamesDiffer(Fill);
    NamesDiffer(Y);
    NamesDiffer(X);
    NamesDiffer(Height);
    NamesDiffer(Width);
  }

  lemma TenReads()
    ensures ReadDecimal("10") == Some(10) && ReadDecimal("320") == Some(320)
  {
    assert "10"[..1] == "1" && "320"[..2] == "32" && "32"[..1] == "3";
    assert ReadDecimal("1") == Some(1) && ReadDecimal("3") == Some(3);
    assert ReadDecimal("32") == Some(32);
  }

  lemma {:induction false} BoxesRead(rects: seq<SvgRect>)
    ensures ReadBoxes(RectTags(rects)) == Some(Boxes(rects))
  {
    hide ReadBox, RectTagOf;
    if rects == [] {
      assert Boxes(rects) == [];
    } else {
      BoxReads(rects[0]);
      BoxesRead(rects[1..]);
      assert ([RectTagOf(rects[0])] + RectTags(rects[1..]))[1..] == RectTags(rects[1..]);
      assert Boxes(rects) == [Boxes(rects)[0]] + Boxes(rects[1..]);
    }
  }

  // ----- The whole document

  function SvgTag(): Tag {
    Tag("svg", map[Name(Rendering) := "crispEdges"][Name(Namespace) := "http://www.w3.org/2000/svg"]
                  [Name(ViewBox) := "0 0 320 320"][Name(Height) := "320"][Name(Width) := "320"])
  }

  function BackgroundTag(background: string): Tag {
    Tag("rect", map[Name(Fill) := "#" + background][Name(Height) := "100%"][Name(Width) := "100%"])
  }

  function SvgAttributes(rest: string): string {
    Attribute(Width, "320", Attribute(Height, "320", Attribute(ViewBox, "0 0 320 320",
      Attribute(Namespace, "http://www.w3.org/2000/svg", Attribute(Rendering, "crispEdges", ">" + rest)))))
  }

  function BackgroundAttributes(background: string, rest: string): string {
    Attribute(Width, "100%", Attribute(Height, "100%", Attribute(Fill, "#" + background, " />" + rest)))
  }

  lemma PlainLiterals()
    ensures Plain("320") && Plain("0 0 320 320") && Plain("http://www.w3.org/2000/svg") && Plain("crispEdges") && Plain("100%")
  {
  }

  lemma SvgAttributesRead(rest: string)
    ensures ReadAttributes(SvgAttributes(rest)) == Some(Attributes(SvgTag().attributes, rest))
  {
    PlainLiterals();
    hide ReadAttributes, Attribute, Name, Plain;
    NamesDiffer(Rendering);
    NamesDiffer(Namespace);
    NamesDiffer(ViewBox);
    NamesDiffer(Height);
    NamesDiffer(Width);
    var fr := Attribute(Rendering, "crispEdges", ">" + rest);
    var fn := Attribute(Namespace, "http://www.w3.org/2000/svg", fr);
    var fv := Attribute(ViewBox, "0 0 320 320", fn);
    EndReads(rest);
    AttributeReads(Rendering, "crispEdges", ">" + rest);
    AttributeReads(Namespace, "http://www.w3.org/2000/svg", fr);
    AttributeReads(ViewBox, "0 0 320 320", fn);
    AttributeReads(Height, "320", fv);
    AttributeReads(Width, "320", Attribute(Height, "320", fv));
  }

  lemma BackgroundAttributesRead(background: string, rest: string)
    requires Plain(background)
    ensures ReadAttributes(BackgroundAttributes(background, rest)) == Some(Attributes(BackgroundTag(background).attributes, rest))
  {
    PlainLiterals();
    assert Plain("#" + background);
    hide ReadAttributes, Attribute, Name, Plain;
    NamesDiffer(Fill);
    NamesDiffer(Height);
    NamesDiffer(Width);
    var f := Attribute(Fill, "#" + background, " />" + rest);
    EndReads(rest);
    AttributeReads(Fill, "#" + background, " />" + rest);
    AttributeReads(Height, "100%", f);
    AttributeReads(Width, "100%", Attribute(Height, "100%", f));
  }

  lemma Wrapped(lead: string, value: string, rest: string)
    ensures lead + (value + QUOTE) + rest == lead + (value + (QUOTE + rest))
  {
    Regroup(lead, value + QUOTE, rest);
    Regroup(value, QUOTE, rest);
  }

  lemma SvgLiterals()
    ensures "<svg width=\"320\"" == "<svg" + (Lead(Width) + ("320" + QUOTE))
    ensures " height=\"320\"" == Lead(Height) + ("320" + QUOTE)
    ensures " viewBox=\"0 0 320 320\"" == Lead(ViewBox) + ("0 0 320 320" + QUOTE)
  {
  }

  lemma NamespaceLiteral()
    ensures " xmlns=\"http://www.w3.org/2000/svg\"" == Lead(Namespace) + ("http://www.w3.org/2000/svg" + QUOTE)
  {
  }

  lemma RenderingLiteral()
    ensures " shape-rendering=\"crispEdges\">" == Lead(Rendering) + ("crispEdges" + QUOTE) + ">"
  {
  }

  lemma FivePieces(a: string, b: string, c: string, d: string, e: string, rest: string)
    ensures a + b + c + d + e + rest == a + (b + (c + (d + (e + rest))))
  {
    Regroup(a + b + c + d, e, rest);
    Regroup(a + b + c, d, e + rest);
    Regroup(a + b, c, d + (e + rest));
    Regroup(a, b, c + (d + (e + rest)));
  }

  lemma SvgForm(rest: string)
    ensures "<svg width=\"320\"" + " height=\"320\"" + " viewBox=\"0 0 320 320\"" + " xmlns=\"http://www.w3.org/2000/svg\""
              + " shape-rendering=\"crispEdges\">" + rest
         == "<svg" + SvgAttributes(rest)
  {
    hide Lead;
    SvgLiterals();
    NamespaceLiteral();
    RenderingLiteral();
    FivePieces("<svg width=\"320\"", " height=\"320\"", " viewBox=\"0 0 320 320\"", " xmlns=\"http://www.w3.org/2000/svg\"",
               " shape-rendering=\"crispEdges\">", rest);
    Regroup(Lead(Rendering) + ("crispEdges" + QUOTE), ">", rest);
    var fr := Attribute(Rendering, "crispEdges", ">" + rest);
    Wrapped(Lead(Rendering), "crispEdges", ">" + rest);
    var fn := Attribute(Namespace, "http://www.w3.org/2000/svg", fr);
    Wrapped(Lead(Namespace), "http://www.w3.org/2000/svg", fr);
    var fv := Attribute(ViewBox, "0 0 320 320", fn);
    Wrapped(Lead(ViewBox), "0 0 320 320", fn);
    var fh := Attribute(Height, "320", fv);
    Wrapped(Lead(Height), "320", fv);
    Wrapped(Lead(Width), "320", fh);
    Regroup("<svg", Lead(Width) + ("320" + QUOTE), fh);
  }

  lemma BackgroundLiterals()
    ensures "<rect width=\"100%\" height=\"100%\" fill=\"#" == "<rect" + (Lead(Width) + ("100%" + (QUOTE + (Lead(Height) + ("100%" + (QUOTE + (Lead(Fill) + "#")))))))
    ensures "\" />" == QUOTE + " />"
  {
  }

  lemma BackgroundSplit(open: string, lw: string, w: string, lh: string, h: string, lf: string, hash: string, f: string, end: string, rest: string)
    ensures (open + (lw + (w + (QUOTE + (lh + (h + (QUOTE + (lf + hash)))))))) + f + (QUOTE + end) + rest
         == open + (lw + (w + (QUOTE + (lh + (h + (QUOTE + (lf + ((hash + f) + (QUOTE + (end + rest))))))))))
  {
    var p := QUOTE + (lh + (h + (QUOTE + (lf + hash))));
    var r := QUOTE + (end + rest);
    Regroup((open + (lw + (w + p))) + f, QUOTE + end, rest);
    Regroup(QUOTE, end, rest);
    Regroup(open + (lw + (w + p)), f, r);
    Regroup(open, lw + (w + p), f + r);
    Regroup(lw, w + p, f + r);
    Regroup(w, p, f + r);
    Regroup(QUOTE, lh + (h + (QUOTE + (lf + hash))), f + r);
    Regroup(lh, h + (QUOTE + (lf + hash)), f + r);
    Regroup(h, QUOTE + (lf + hash), f + r);
    Regroup(QUOTE, lf + hash, f + r);
    Regroup(lf, hash, f + r);
    Regroup(hash, f, r);
  }

  lemma BackgroundForm(background: string, rest: string)
    ensures "<rect width=\"100%\" height=\"100%\" fill=\"#" + background + "\" />" + rest
         == "<rect" + BackgroundAttributes(background, rest)
  {
    hide Lead;
    BackgroundLiterals();
    BackgroundSplit("<rect", Lead(Width), "100%", Lead(Height), "100%", Lead(Fill), "#", background, " />", rest);
  }

  lemma DocumentPieces(a: string, b: string, c: string, d: string, e: string, open: string, background: string, close: string, body: string, end: string)
    ensures a + b + c + d + e + open + background + close + body + end
         == a + b + c + d + e + (open + background + close + (body + end))
  {
    var svg := a + b + c + d + e;
    Regroup(svg + open + background + close, body, end);
    Regroup(svg + open + background, close, body + end);
    Regroup(svg + open, background, close + (body + end));
    Regroup(svg, open, background + (close + (body + end)));
    Regroup(open + background, close, body + end);
    Regroup(open, background, close + (body + end));
  }

  lemma DocumentForm(background: string, body: string)
    ensures Document(background, body) == "<svg" + SvgAttributes("<rect" + BackgroundAttributes(background, body + "</svg>"))
  {
    hide SvgAttributes, BackgroundAttributes;
    DocumentPieces("<svg width=\"320\"", " height=\"320\"", " viewBox=\"0 0 320 320\"", " xmlns=\"http://www.w3.org/2000/svg\"",
                   " shape-rendering=\"crispEdges\">", "<rect width=\"100%\" height=\"100%\" fill=\"#", background, "\" />", body, "</svg>");
    BackgroundForm(background, body + "</svg>");
    SvgForm("<rect" + BackgroundAttributes(background, body + "</svg>"));
    assert Document(background, body)
        == "<svg width=\"320\"" + " height=\"320\"" + " viewBox=\"0 0 320 320\"" + " xmlns=\"http://www.w3.org/2000/svg\""
           + " shape-rendering=\"crispEdges\">" + ("<rect" + BackgroundAttributes(background, body + "</svg>"));
  }

  lemma CloseReads()
    ensures ReadTags("</svg>") == Some([Tag("/svg", map[])])
  {
    assert ">" + "" == ">" && ReadTags("") == Some([]);
    hide ReadAttributes, ReadTags, TagName;
    EndReads("");
    TagNames();
    TagReads("/svg", ">");
    var closing := [Tag("/svg", map[])];
    assert closing + [] == closing;
  }

  lemma OpeningReads(name: string, s: string, values: map<string, string>, rest: string)
    requires TagName(name) && s != "" && s[0] == ' '
    requires ReadAttributes(s) == Some(Attributes(values, rest)) && ReadTags(rest).Some?
    ensures ReadTags("<" + name + s) == Some([Tag(name, values)] + ReadTags(rest).value)
  {
    hide ReadAttributes, ReadTags;
    TagReads(name, s);
  }

  lemma BackgroundReads(background: string, body: string)
    requires Plain(background) && ReadTags(body).Some?
    ensures ReadTags("<rect" + BackgroundAttributes(background, body)) == Some([BackgroundTag(background)] + ReadTags(body).value)
  {
    var s := BackgroundAttributes(background, body);
    LeadSpace(Width, "100%", Attribute(Height, "100%", Attribute(Fill, "#" + background, " />" + body)));
    assert s != "" && s[0] == ' ';
    hide ReadTags, ReadAttributes, BackgroundAttributes;
    BackgroundAttributesRead(background, body);
    TagNames();
    OpeningReads("rect", s, BackgroundTag(background).attributes, body);
  }

  lemma SvgReads(rest: string)
    requires ReadTags(rest).Some?
    ensures ReadTags("<svg" + SvgAttributes(rest)) == Some([SvgTag()] + ReadTags(rest).value)
  {
    var s := SvgAttributes(rest);
    LeadSpace(Width, "320", Attribute(Height, "320", Attribute(ViewBox, "0 0 320 320",
      Attribute(Namespace, "http://www.w3.org/2000/svg", Attribute(Rendering, "crispEdges", ">" + rest)))));
    assert s != "" && s[0] == ' ';
    hide ReadTags, ReadAttributes, SvgAttributes;
    SvgAttributesRead(rest);
    TagNames();
    OpeningReads("svg", s, SvgTag().attributes, rest);
  }

  lemma DocumentReads(rects: seq<SvgRect>, background: string)
    requires PlainFills(rects) && Plain(background)
    ensures ReadTags(Document(background, Elements(rects)))
         == Some([SvgTag()] + ([BackgroundTag(background)] + (RectTags(rects) + [Tag("/svg", map[])])))
  {
    hide ReadTags, Document, Elements, SvgAttributes, BackgroundAttributes, RectTags, SvgTag, BackgroundTag, Plain;
    var body := Elements(rects) + "</svg>";
    DocumentForm(background, Elements(rects));
    CloseReads();
    ElementsRead(rects, "</svg>");
    BackgroundReads(background, body);
    SvgReads("<rect" + BackgroundAttributes(background, body));
  }

  lemma HeadReads(background: string)
    ensures SvgTag().name == "svg" && Number(SvgTag(), Width) == Some(320) && Number(SvgTag(), Height) == Some(320)
    ensures Get(SvgTag(), ViewBox) == Some("0 0 320 320")
    ensures ReadBackground(BackgroundTag(background)) == Some(background)
  {
    TenReads();
    assert ("#" + background)[1..] == background;
    hide Name, ReadDecimal;
    NamesDiffer(Rendering);
    NamesDiffer(Namespace);
    NamesDiffer(ViewBox);
    NamesDiffer(Height);
    NamesDiffer(Width);
    NamesDiffer(Fill);
  }

  lemma TagsBetween(first: Tag, second: Tag, middle: seq<Tag>, last: Tag)
    ensures var tags := [first] + ([second] + (middle + [last]));
            |tags| >= 3 && tags[0] == first && tags[1] == second && tags[2..|tags| - 1] == middle && tags[|tags| - 1] == last
  {
  }

  // The text of a document describes exactly its rectangles, in their order, ten pixels to a cell, on
  // a background of 320 by 320.
  lemma PictureReads(rects: seq<SvgRect>, background: string)
    requires PlainFills(rects) && Plain(background)
    ensures ReadPicture(Document(background, Elements(rects)))
         == Some(Picture(320, 320, "0 0 320 320", background, Boxes(rects)))
  {
    hide ReadTags, Document, Elements, RectTags, Boxes, ReadBoxes, SvgTag, BackgroundTag, Number, Get, ReadBackground, Plain;
    DocumentReads(rects, background);
    BoxesRead(rects);
    HeadReads(background);
    TagsBetween(SvgTag(), BackgroundTag(background), RectTags(rects), Tag("/svg", map[]));
  }
}
