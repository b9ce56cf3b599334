/**
  The 3D engine's bitmap font (`Font` in graphics/Text.rs): an AngelCode-style XML font
  description turned into a glyph table keyed by UTF-16 code unit, plus a page texture
  looked up through the texture cache.

  Floating-point attributes go through `parseFloat`, a parameter standing for Rust's
  `str::parse::<f32>`; glyph rectangles are kept in pixels (the division by the page size
  is not modelled).
*/
module BitmapFont {
  import opened Basics
  import opened Xml
  import TextureCache

  // ----- Rust's integer parsing -----

  predicate IsDigit(c: char) { '0' <= c <= '9' }

  predicate AllDigits(s: string) { forall i :: 0 <= i < |s| ==> IsDigit(s[i]) }

  /** The decimal value of a digit string. */
  function DigitsValue(s: string): nat
    requires AllDigits(s)
  {
    if s == [] then 0 else DigitsValue(s[..|s| - 1]) * 10 + (s[|s| - 1] as int - '0' as int)
  }

  /** `str::parse` for an unsigned type with maximum `max`: an optional `+`, then at least one digit. */
  function ParseUnsigned(s: string, max: nat): (r: Option<nat>)
    ensures r.Some? ==> r.value <= max
  {
    var digits := if |s| > 0 && s[0] == '+' then s[1..] else s;
    if |digits| == 0 || !AllDigits(digits) || DigitsValue(digits) > max then None
    else Some(DigitsValue(digits))
  }

  function ParseU8(s: string): Option<nat> { ParseUnsigned(s, 0xff) }

  function ParseU16(s: string): Option<nat> { ParseUnsigned(s, 0xffff) }

  /** `str::parse::<i32>`: an optional `+` or `-`, then at least one digit, within the 32-bit range. */
  function ParseI32(s: string): (r: Option<int>)
    ensures r.Some? ==> -0x8000_0000 <= r.value <= 0x7fff_ffff
  {
    var negative := |s| > 0 && s[0] == '-';
    var digits := if |s| > 0 && (s[0] == '+' || s[0] == '-') then s[1..] else s;
    if |digits| == 0 || !AllDigits(digits) then None
    else
      var v: int := if negative then -(DigitsValue(digits) as int) else DigitsValue(digits);
      if -0x8000_0000 <= v <= 0x7fff_ffff then Some(v) else None
  }

  /** The decimal spelling of a natural number, without sign or leading zeros. */
  function Decimal(n: nat): (s: string)
    ensures |s| > 0 && AllDigits(s)
  {
    if n < 10 then [('0' as int + n) as char]
    else Decimal(n / 10) + [('0' as int + n % 10) as char]
  }

  lemma {:induction false} DecimalValue(n: nat)
    ensures DigitsValue(Decimal(n)) == n
  {
    if n >= 10 {
      DecimalValue(n / 10);
      assert Decimal(n)[..|Decimal(n)| - 1] == Decimal(n / 10);
    }
  }

  /** Parsing reads back every number a font file writes in decimal, up to the type's maximum. */
  lemma ParseUnsignedDecimal(n: nat, max: nat)
    requires n <= max
    ensures ParseUnsigned(Decimal(n), max) == Some(n)
  {
    DecimalValue(n);
  }

  /** A negative number reads back through `-` and its decimal magnitude. */
  lemma ParseI32Decimal(n: int)
    requires -0x8000_0000 <= n <= 0x7fff_ffff
    ensures ParseI32(if n < 0 then "-" + Decimal(-n) else Decimal(n)) == Some(n)
  {
    if n < 0 {
      var d := Decimal(-n);
      DecimalValue(-n);
      assert ("-" + d)[0] == '-' && ("-" + d)[1..] == d;
      assert -(DigitsValue(d) as int) == n;
    } else {
      var d := Decimal(n);
      DecimalValue(n);
      assert d[0] != '-' && d[0] != '+';
    }
  }

  /** A sign alone, or nothing, is not a number. */
  lemma ParseRejects()
    ensures ParseU8("") == None && ParseU8("+") == None && ParseU8("-1") == None
    ensures ParseU8("256") == None && ParseU8("+255") == Some(255)
    ensures ParseI32("-") == None
  {
    assert "256"[..2] == "25" && "25"[..1] == "2" && "2"[..0] == [];
    assert "+255"[1..] == "255";
    assert "255"[..2] == "25" && "25"[..1] == "2";
  }

  // ----- The font -----

  /** A glyph: its atlas rectangle in pixels, its drawing offset and its advance. */
  datatype Glyph = Glyph(x: real, y: real, width: real, height: real, xoffset: int, yoffset: int, advance: nat)

  datatype Font = Font(page: nat, glyphs: map<nat, Glyph>, height: nat, name: string, base: nat)

  /** `Font::new`: page 0, no glyphs, height 0, no name. */
  const EmptyFont: Font := Font(0, map[], 0, "", 0)

  /** What opening and reading the font file produced. */
  datatype FontSource = Unreadable | Malformed | Document(root: Element)

  /** An attribute, or the text `"0"` when it is absent. */
  function AttOr0(e: Element, key: string): string {
    Att(e, key).GetOr("0")
  }

  /** The attributes of one `char` element all parse: they would otherwise panic. */
  predicate GlyphParses(ch: Element, parseFloat: string -> Option<real>) {
    ParseU16(AttOr0(ch, "id")).Some? &&
    parseFloat(AttOr0(ch, "x")).Some? && parseFloat(AttOr0(ch, "y")).Some? &&
    parseFloat(AttOr0(ch, "width")).Some? && parseFloat(AttOr0(ch, "height")).Some? &&
    ParseI32(AttOr0(ch, "xoffset")).Some? && ParseI32(AttOr0(ch, "yoffset")).Some? &&
    ParseU8(AttOr0(ch, "xadvance")).Some?
  }

  /** What `Font::load` needs of one top-level element in order not to panic. */
  predicate ElementLoads(path: string, e: Element, parseFloat: string -> Option<real>) {
    (e.name == "common" ==>
      ParseU8(AttOr0(e, "lineHeight")).Some? &&
      parseFloat(AttOr0(e, "scaleW")).Some? && parseFloat(AttOr0(e, "scaleH")).Some?) &&
    (e.name == "pages" ==> '/' in path && |e.children| > 0) &&
    (e.name == "chars" ==> forall k :: 0 <= k < |e.children| ==> GlyphParses(e.children[k], parseFloat))
  }

  predicate Loads(path: string, elems: seq<Element>, parseFloat: string -> Option<real>) {
    forall i :: 0 <= i < |elems| ==> ElementLoads(path, elems[i], parseFloat)
  }

  /** The key a `char` element is stored under. */
  function GlyphId(ch: Element): nat {
    ParseU16(AttOr0(ch, "id")).GetOr(0)
  }

  /** The glyph of a `char` element; a missing attribute reads as 0, and `GlyphParses` excludes one that does not parse. */
  function GlyphOf(ch: Element, parseFloat: string -> Option<real>): (g: Glyph)
    ensures g.advance <= 0xff
    ensures -0x8000_0000 <= g.xoffset <= 0x7fff_ffff && -0x8000_0000 <= g.yoffset <= 0x7fff_ffff
  {
    Glyph(parseFloat(AttOr0(ch, "x")).GetOr(0.0), parseFloat(AttOr0(ch, "y")).GetOr(0.0),
          parseFloat(AttOr0(ch, "width")).GetOr(0.0), parseFloat(AttOr0(ch, "height")).GetOr(0.0),
          ParseI32(AttOr0(ch, "xoffset")).GetOr(0), ParseI32(AttOr0(ch, "yoffset")).GetOr(0),
          ParseU8(AttOr0(ch, "xadvance")).GetOr(0))
  }

  /** The last top-level element with this name: the one whose assignments survive. */
  function LastNamed(elems: seq<Element>, name: string): (r: Option<Element>)
    ensures r.Some? ==> r.value.name == name && r.value in elems
    ensures r.None? ==> forall i :: 0 <= i < |elems| ==> elems[i].name != name
  {
    if elems == [] then None
    else if elems[|elems| - 1].name == name then Some(elems[|elems| - 1])
    else LastNamed(elems[..|elems| - 1], name)
  }

  /** The font name: the `face` of the last `info` element, empty without one. */
  function FaceOf(elems: seq<Element>): string {
    match LastNamed(elems, "info") case Some(e) => Att(e, "face").GetOr("") case None => ""
  }

  /** The line height: the `lineHeight` of the last `common` element, 0 without one. */
  function LineHeightOf(elems: seq<Element>): nat {
    match LastNamed(elems, "common") case Some(e) => ParseU8(AttOr0(e, "lineHeight")).GetOr(0) case None => 0
  }

  /** Every `char` element, in document order, across all `chars` elements. */
  function CharElements(elems: seq<Element>): seq<Element> {
    if elems == [] then []
    else CharElements(elems[..|elems| - 1])
         + (if elems[|elems| - 1].name == "chars" then elems[|elems| - 1].children else [])
  }

  /** The glyph table after inserting the `char` elements in order, later ones overwriting. */
  function InsertGlyphs(m: map<nat, Glyph>, chars: seq<Element>, parseFloat: string -> Option<real>): map<nat, Glyph> {
    if chars == [] then m
    else InsertGlyphs(m, chars[..|chars| - 1], parseFloat)[GlyphId(chars[|chars| - 1]) := GlyphOf(chars[|chars| - 1], parseFloat)]
  }

  /**
    The table holds a key exactly when some `char` element carries that id, and the glyph
    stored is that of the last such element: a later duplicate overwrites an earlier one.
  */
  lemma {:induction false} InsertGlyphsKeys(chars: seq<Element>, parseFloat: string -> Option<real>, k: nat)
    ensures k in InsertGlyphs(map[], chars, parseFloat) <==> exists j :: 0 <= j < |chars| && GlyphId(chars[j]) == k
  {
    if chars != [] {
      var front := chars[..|chars| - 1];
      var last := chars[|chars| - 1];
      InsertGlyphsKeys(front, parseFloat, k);
      assert InsertGlyphs(map[], chars, parseFloat)
          == InsertGlyphs(map[], front, parseFloat)[GlyphId(last) := GlyphOf(last, parseFloat)];
      if k in InsertGlyphs(map[], front, parseFloat) {
        var j :| 0 <= j < |front| && GlyphId(front[j]) == k;
        assert chars[j] == front[j];
      }
      if exists j :: 0 <= j < |chars| && GlyphId(chars[j]) == k {
        var j :| 0 <= j < |chars| && GlyphId(chars[j]) == k;
        if j < |front| {
          assert front[j] == chars[j];
        }
      }
    }
  }

  lemma {:induction false} InsertGlyphsLastWins(chars: seq<Element>, parseFloat: string -> Option<real>, k: nat, j: nat)
    requires j < |chars| && GlyphId(chars[j]) == k
    requires forall j' :: j < j' < |chars| ==> GlyphId(chars[j']) != k
    ensures k in InsertGlyphs(map[], chars, parseFloat)
    ensures InsertGlyphs(map[], chars, parseFloat)[k] == GlyphOf(chars[j], parseFloat)
  {
    var front := chars[..|chars| - 1];
    if j < |chars| - 1 {
      assert front[j] == chars[j];
      InsertGlyphsLastWins(front, parseFloat, k, j);
    }
  }

  /** Inserting two batches one after the other is inserting their concatenation. */
  lemma {:induction false} InsertGlyphsAppend(m: map<nat, Glyph>, a: seq<Element>, b: seq<Element>, parseFloat: string -> Option<real>)
    ensures InsertGlyphs(m, a + b, parseFloat) == InsertGlyphs(InsertGlyphs(m, a, parseFloat), b, parseFloat)
    decreases |b|
  {
    if b == [] {
      assert a + b == a;
    } else {
      assert (a + b)[..|a + b| - 1] == a + b[..|b| - 1];
      InsertGlyphsAppend(m, a, b[..|b| - 1], parseFloat);
    }
  }

  /** The inner loop of `load` over the children of one `chars` element. */
  method InsertChars(glyphs: map<nat, Glyph>, chars: seq<Element>, parseFloat: string -> Option<real>)
    returns (r: map<nat, Glyph>)
    requires forall k :: 0 <= k < |chars| ==> GlyphParses(chars[k], parseFloat)
    ensures r == InsertGlyphs(glyphs, chars, parseFloat)
  {
    r := glyphs;
    for k := 0 to |chars|
      invariant r == InsertGlyphs(glyphs, chars[..k], parseFloat)
    {
      assert chars[..k + 1][..k] == chars[..k];
      r := r[ParseU16(AttOr0(chars[k], "id")).value := GlyphOf(chars[k], parseFloat)];
    }
    assert chars[..|chars|] == chars;
  }

  /** The directory part of a path: everything up to and including its last `/`. */
  function PageDir(path: string): (dir: string)
    requires '/' in path
    ensures |dir| > 0 && dir <= path && dir[|dir| - 1] == '/'
    ensures forall m :: |dir| <= m < |path| ==> path[m] != '/'
  {
    if path[|path| - 1] == '/' then path
    else
      assert '/' in path[..|path| - 1] by {
        var m :| 0 <= m < |path| && path[m] == '/';
        assert path[..|path| - 1][m] == '/';
      }
      PageDir(path[..|path| - 1])
  }

  /** The texture path of a `pages` element: the font's directory and the first page's `file`. */
  function PagePath(path: string, e: Element): (p: string)
    requires '/' in path && |e.children| > 0
    ensures PageDir(path) <= p && p[|PageDir(path)|..] == Att(e.children[0], "file").GetOr("")
  {
    PageDir(path) + Att(e.children[0], "file").GetOr("")
  }

  /** The page texture paths requested while loading, one per `pages` element, in order. */
  function PagePaths(path: string, elems: seq<Element>): seq<string>
    requires forall i :: 0 <= i < |elems| && elems[i].name == "pages" ==> '/' in path && |elems[i].children| > 0
  {
    if elems == [] then []
    else PagePaths(path, elems[..|elems| - 1])
         + (if elems[|elems| - 1].name == "pages" then [PagePath(path, elems[|elems| - 1])] else [])
  }

  /** The `while` loop of `load` that pops characters until the path ends in `/`. */
  method PageDirectory(path: string) returns (p: string)
    requires '/' in path
    ensures p == PageDir(path)
  {
    p := path;
    while p[|p| - 1] != '/'
      invariant 0 < |p| <= |path| && p == path[..|p|] && '/' in p
      invariant PageDir(path) == PageDir(p)
      decreases |p|
    {
      assert '/' in p[..|p| - 1] by {
        var m :| 0 <= m < |p| && p[m] == '/';
        assert p[..|p| - 1][m] == '/';
      }
      p := p[..|p| - 1];
    }
  }

  /** A `pages` element can be handled: the path has a directory and the element a first page. */
  predicate PagesLoad(path: string, node: Element) {
    node.name == "pages" ==> '/' in path && |node.children| > 0
  }

  /** One pass of `load`'s element loop: the font and the texture cache after `node`. */
  function Apply(path: string, node: Element, font: Font, entries: seq<TextureCache.Texture>,
                 loader: string -> nat, parseFloat: string -> Option<real>): (r: (Font, seq<TextureCache.Texture>))
    requires PagesLoad(path, node)
    ensures entries <= r.1 && |r.1| <= |entries| + 1 && r.0.base == font.base
    ensures node.name != "pages" ==> r.1 == entries && r.0.page == font.page
    ensures node.name != "chars" ==> r.0.glyphs == font.glyphs
  {
    if node.name == "info" then (font.(name := Att(node, "face").GetOr("")), entries)
    else if node.name == "common" then (font.(height := ParseU8(AttOr0(node, "lineHeight")).GetOr(0)), entries)
    else if node.name == "pages" then
      var (id, after) := TextureCache.Request(entries, PagePath(path, node), loader);
      (font.(page := id), after)
    else if node.name == "chars" then (font.(glyphs := InsertGlyphs(font.glyphs, node.children, parseFloat)), entries)
    else (font, entries)
  }

  /** The element loop of `load` over a document's top-level elements. */
  function LoadAll(path: string, elems: seq<Element>, font: Font, entries: seq<TextureCache.Texture>,
                   loader: string -> nat, parseFloat: string -> Option<real>): (r: (Font, seq<TextureCache.Texture>))
    requires forall i :: 0 <= i < |elems| ==> PagesLoad(path, elems[i])
    ensures entries <= r.1 && |r.1| <= |entries| + |elems| && r.0.base == font.base
  {
    if elems == [] then (font, entries)
    else
      var (f, e) := LoadAll(path, elems[..|elems| - 1], font, entries, loader, parseFloat);
      Apply(path, elems[|elems| - 1], f, e, loader, parseFloat)
  }

  /** The name comes from the last `info`, the line height from the last `common`, and `base` is never assigned. */
  lemma {:induction false} LoadAllHeader(path: string, elems: seq<Element>, entries: seq<TextureCache.Texture>,
                                        loader: string -> nat, parseFloat: string -> Option<real>)
    requires forall i :: 0 <= i < |elems| ==> PagesLoad(path, elems[i])
    ensures var font := LoadAll(path, elems, EmptyFont, entries, loader, parseFloat).0;
      font.name == FaceOf(elems) && font.height == LineHeightOf(elems) && font.base == 0
  {
    if elems != [] {
      LoadAllHeader(path, elems[..|elems| - 1], entries, loader, parseFloat);
    }
  }

  /** Every `char` of every `chars` element is inserted by id, in document order. */
  lemma {:induction false} LoadAllGlyphs(path: string, elems: seq<Element>, entries: seq<TextureCache.Texture>,
                                        loader: string -> nat, parseFloat: string -> Option<real>)
    requires forall i :: 0 <= i < |elems| ==> PagesLoad(path, elems[i])
    ensures LoadAll(path, elems, EmptyFont, entries, loader, parseFloat).0.glyphs
         == InsertGlyphs(map[], CharElements(elems), parseFloat)
  {
    if elems != [] {
      var front := elems[..|elems| - 1];
      var node := elems[|elems| - 1];
      LoadAllGlyphs(path, front, entries, loader, parseFloat);
      var prev := LoadAll(path, front, EmptyFont, entries, loader, parseFloat);
      assert LoadAll(path, elems, EmptyFont, entries, loader, parseFloat)
          == Apply(path, node, prev.0, prev.1, loader, parseFloat);
      var chars0 := CharElements(front);
      if node.name == "chars" {
        assert CharElements(elems) == chars0 + node.children;
        InsertGlyphsAppend(map[], chars0, node.children, parseFloat);
      } else {
        assert CharElements(elems) == chars0 + [] == chars0;
      }
    }
  }

  /** Every `pages` element requests its texture from the cache, in order, and the last one sets the page. */
  lemma {:induction false} LoadAllPages(path: string, elems: seq<Element>, entries: seq<TextureCache.Texture>,
                                       loader: string -> nat, parseFloat: string -> Option<real>)
    requires forall i :: 0 <= i < |elems| ==> PagesLoad(path, elems[i])
    ensures var (font, after) := LoadAll(path, elems, EmptyFont, entries, loader, parseFloat);
      var (ids, cached) := TextureCache.RequestAll(entries, PagePaths(path, elems), loader);
      after == cached && font.page == (if ids == [] then 0 else ids[|ids| - 1])
  {
    if elems != [] {
      var front := elems[..|elems| - 1];
      var node := elems[|elems| - 1];
      LoadAllPages(path, front, entries, loader, parseFloat);
      var pages0 := PagePaths(path, front);
      if node.name == "pages" {
        assert PagePaths(path, elems) == pages0 + [PagePath(path, node)];
        assert (pages0 + [PagePath(path, node)])[..|pages0|] == pages0;
      } else {
        assert PagePaths(path, elems) == pages0 + [] == pages0;
      }
    }
  }

  /** `LoadAll` over one more element is `Apply` on that element. */
  lemma LoadAllStep(path: string, elems: seq<Element>, i: nat, entries: seq<TextureCache.Texture>,
                    loader: string -> nat, parseFloat: string -> Option<real>)
    requires i < |elems| && forall k :: 0 <= k < |elems| ==> PagesLoad(path, elems[k])
    ensures var (f, e) := LoadAll(path, elems[..i], EmptyFont, entries, loader, parseFloat);
      LoadAll(path, elems[..i + 1], EmptyFont, entries, loader, parseFloat) == Apply(path, elems[i], f, e, loader, parseFloat)
  {
    assert elems[..i + 1][..i] == elems[..i];
  }

  /**
    `Font::load`. An unreadable or malformed file gives the empty font and leaves the cache
    alone; otherwise the result is the element loop's.
  */
  method Load(path: string, src: FontSource, cache: TextureCache.Cache,
              loader: string -> nat, parseFloat: string -> Option<real>) returns (font: Font)
    requires cache.Valid()
    requires src.Document? ==> Loads(path, src.root.children, parseFloat)
    modifies cache
    ensures cache.Valid()
    ensures !src.Document? ==> font == EmptyFont && cache.entries == old(cache.entries)
    ensures src.Document? ==>
      (font, cache.entries) == LoadAll(path, src.root.children, EmptyFont, old(cache.entries), loader, parseFloat)
  {
    font := EmptyFont;
    if !src.Document? { return; }
    var elems := src.root.children;
    var i := 0;
    while i < |elems|
      invariant 0 <= i <= |elems| && cache.Valid()
      invariant (font, cache.entries) == LoadAll(path, elems[..i], EmptyFont, old(cache.entries), loader, parseFloat)
    {
      LoadAllStep(path, elems, i, old(cache.entries), loader, parseFloat);
      font := LoadElement(path, elems[i], font, cache, loader, parseFloat);
      i := i + 1;
    }
    assert elems[..i] == elems;
  }

  /** One pass of `load`'s element loop. */
  method LoadElement(path: string, node: Element, font0: Font, cache: TextureCache.Cache,
                     loader: string -> nat, parseFloat: string -> Option<real>) returns (font: Font)
    requires cache.Valid() && ElementLoads(path, node, parseFloat)
    modifies cache
    ensures cache.Valid()
    ensures (font, cache.entries) == Apply(path, node, font0, old(cache.entries), loader, parseFloat)
  {
    font := font0;
    // The element names are distinct, so at most one of the source's four `if`s applies.
    if node.name == "info" {
      font := font.(name := Att(node, "face").GetOr(""));
    } else if node.name == "common" {
      font := font.(height := ParseU8(AttOr0(node, "lineHeight")).value);
    } else if node.name == "pages" {
      var p := PageDirectory(path);
      var id := cache.GetTexture(p + Att(node.children[0], "file").GetOr(""), loader);
      font := font.(page := id);
    } else if node.name == "chars" {
      var glyphs := InsertChars(font.glyphs, node.children, parseFloat);
      font := font.(glyphs := glyphs);
    }
  }

  /** The table key of a character: Rust's `c as u16` keeps the low 16 bits of the code point. */
  function Key(c: char): (k: nat)
    ensures k < 0x1_0000
    ensures c as int < 0x1_0000 ==> k == c as int
  {
    c as int % 0x1_0000
  }

  /** `Font::getGlyph`: the glyph stored under the character's key; a missing glyph panics. */
  function GetGlyph(font: Font, c: char): (g: Glyph)
    requires Key(c) in font.glyphs
    ensures g in font.glyphs.Values
  {
    font.glyphs[Key(c)]
  }

  /** A character beyond the Basic Multilingual Plane shares its glyph with the one 0x10000 below it. */
  lemma GetGlyphTruncates(font: Font, c: char, d: char)
    requires d as int == c as int + 0x1_0000 && Key(c) in font.glyphs
    ensures Key(d) in font.glyphs && GetGlyph(font, d) == GetGlyph(font, c)
  {
  }

  /** On a loaded font, the glyph of `c` is that of the last `char` element whose id is `c`'s key. */
  lemma LoadedGlyph(elems: seq<Element>, parseFloat: string -> Option<real>, c: char, j: nat)
    requires var chars := CharElements(elems);
      j < |chars| && GlyphId(chars[j]) == Key(c) &&
      forall j' :: j < j' < |chars| ==> GlyphId(chars[j']) != Key(c)
    ensures var font := Font(0, InsertGlyphs(map[], CharElements(elems), parseFloat), 0, "", 0);
      Key(c) in font.glyphs && GetGlyph(font, c) == GlyphOf(CharElements(elems)[j], parseFloat)
  {
    InsertGlyphsLastWins(CharElements(elems), parseFloat, Key(c), j);
  }
}
