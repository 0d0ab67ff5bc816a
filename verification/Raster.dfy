/** Glyph bitmaps added into an image with saturation, and the image turned into a pixel buffer. */
module Raster {
  import opened Arithmetic
  import opened Base
  import opened Wire

  datatype Point = Point(x: u32, y: u32)

  type Pixels = map<Point, byte>

  datatype Image = Image(width: u32, height: u32, pixels: Pixels)

  /** A rendered glyph: its bitmap, its placement, and the integer part of the pen position. */
  datatype Glyph = Glyph(left: i32, top: i32, width: u32, height: u32, data: seq<byte>, posX: u32)

  /** Cut off at 255, and only there. */
  function Saturate(n: nat): (r: nat)
    ensures r <= n && r <= 255 && (r < n ==> r == 255)
  {
    if n > 0xFF then 0xFF else n
  }

  /** The alpha of a pixel; a pixel that is not in the map is transparent. */
  function Pixel(pixels: Pixels, x: u32, y: u32): nat
  {
    if Point(x, y) in pixels then pixels[Point(x, y)] as nat else 0
  }

  lemma IndexInBitmap(w: nat, h: nat, x: nat, y: nat)
    requires x < w && y < h
    ensures y * w + x < w * h
  {
    assert (y + 1) * w <= h * w;
  }

  /** The rendered image has a byte for every position of its placement, and the index fits 32 bits. */
  predicate WholeBitmap(g: Glyph)
  {
    g.width * g.height <= |g.data| && g.width * g.height <= 0x1_0000_0000
  }

  /** That is exactly what it takes for every position to have its index in bounds. */
  lemma WholeBitmapExact(g: Glyph)
    ensures WholeBitmap(g) <==>
            forall x, y :: 0 <= x < g.width && 0 <= y < g.height ==> IndexFits(g, x, y)
  {
    if WholeBitmap(g) {
      forall x, y | 0 <= x < g.width && 0 <= y < g.height ensures IndexFits(g, x, y) {
        IndexInBitmap(g.width, g.height, x, y);
      }
    } else if g.width > 0 && g.height > 0 {
      assert (g.height - 1) * g.width + (g.width - 1) == g.width * g.height - 1;
      assert !IndexFits(g, g.width - 1, g.height - 1);
    }
  }

  /** `y * width + x` fits 32 bits and has a byte. */
  predicate IndexFits(g: Glyph, x: int, y: int)
  {
    y * g.width + x < 0x1_0000_0000 && y * g.width + x < |g.data|
  }

  /** The coverage of one bitmap position, zero outside the bitmap. */
  function Coverage(g: Glyph, x: int, y: int): nat
    requires WholeBitmap(g)
  {
    if 0 <= x < g.width && 0 <= y < g.height then
      IndexInBitmap(g.width, g.height, x, y);
      g.data[y * g.width + x] as nat
    else 0
  }

  predicate IsI32(v: int)
  {
    -0x8000_0000 <= v < 0x8000_0000
  }

  /** No coordinate computed for one bitmap position overflows. */
  predicate Fitting(g: Glyph, ascender: i32, x: int, y: int)
  {
    && IsI32(g.posX + x) && IsI32(g.left + (g.posX + x))
    && IsI32(ascender - g.top) && IsI32(y) && IsI32(ascender - g.top + y)
  }

  /** No coordinate computed for a visible bitmap position overflows. */
  ghost predicate NoOverflow(g: Glyph, ascender: i32)
    requires WholeBitmap(g)
  {
    forall x, y :: Coverage(g, x, y) > 0 ==> Fitting(g, ascender, x, y)
  }

  /** What a glyph adds to the image pixel (px, py). */
  function Contribution(g: Glyph, ascender: i32, px: u32, py: u32): nat
    requires WholeBitmap(g)
  {
    Coverage(g, px - g.left - g.posX, py - ascender + g.top)
  }

  /** The part of the contribution from the rows before `rows` and, in row `rows`, the columns before `cols`. */
  function Partly(g: Glyph, ascender: i32, rows: nat, cols: nat, px: u32, py: u32): nat
    requires WholeBitmap(g)
  {
    var x, y := px - g.left - g.posX, py - ascender + g.top;
    if y < rows || (y == rows && x < cols) then Coverage(g, x, y) else 0
  }

  /** `entry(p).or_insert(0).saturating_add(b)` */
  function AddTo(pixels: Pixels, x: u32, y: u32, b: byte): Pixels
  {
    pixels[Point(x, y) := Saturate(Pixel(pixels, x, y) + b as nat) as byte]
  }

  /** Adds one glyph's bitmap to the pixels. */
  method AddGlyph(before: Pixels, g: Glyph, ascender: i32) returns (pixels: Pixels)
    requires WholeBitmap(g) && NoOverflow(g, ascender)
    ensures forall px: u32, py: u32 ::
      Pixel(pixels, px, py) == Saturate(Pixel(before, px, py) + Contribution(g, ascender, px, py))
    ensures forall px: u32, py: u32 ::
      Point(px, py) in pixels <==> Point(px, py) in before || Contribution(g, ascender, px, py) > 0
  {
    hide Pixel, Partly, Saturate, AddTo, Contribution, Added;
    pixels := before;
    NothingYet(before, g, ascender);
    for y := 0 to g.height
      invariant Added(before, pixels, g, ascender, y, 0)
    {
      for x := 0 to g.width
        invariant Added(before, pixels, g, ascender, y, x)
      {
        IndexInBitmap(g.width, g.height, x, y);
        var b := g.data[y * g.width + x];
        ghost var was := pixels;
        if b != 0 {
          assert Coverage(g, x, y) == b as nat;
          var actualX: int := g.left + (g.posX + x);
          var actualY: int := ascender - g.top + y;
          if actualX >= 0 && actualY >= 0 {
            pixels := AddTo(pixels, actualX, actualY, b);
          }
        }
        AddedColumn(before, was, pixels, g, ascender, y, x, b);
      }
      AddedRow(before, pixels, g, ascender, y);
    }
    AddedAll(before, pixels, g, ascender);
  }

  ghost predicate Added(before: Pixels, now: Pixels, g: Glyph, ascender: i32, rows: nat, cols: nat)
    requires WholeBitmap(g)
  {
    && (forall px: u32, py: u32 ::
          Pixel(now, px, py) == Saturate(Pixel(before, px, py) + Partly(g, ascender, rows, cols, px, py)))
    && (forall px: u32, py: u32 ::
          Point(px, py) in now <==> Point(px, py) in before || Partly(g, ascender, rows, cols, px, py) > 0)
  }

  lemma NothingYet(before: Pixels, g: Glyph, ascender: i32)
    requires WholeBitmap(g)
    ensures Added(before, before, g, ascender, 0, 0)
  {
  }

  lemma AddedColumn(before: Pixels, was: Pixels, now: Pixels,
                    g: Glyph, ascender: i32, y: nat, x: nat, b: byte)
    requires WholeBitmap(g) && y < g.height && x < g.width && b as nat == Coverage(g, x, y)
    requires Added(before, was, g, ascender, y, x)
    requires var ax, ay := g.left + (g.posX + x), ascender - g.top + y;
             if b != 0 && ax >= 0 && ay >= 0
             then ax < 0x8000_0000 && ay < 0x8000_0000 && now == AddTo(was, ax, ay, b)
             else now == was
    ensures Added(before, now, g, ascender, y, x + 1)
  {
    forall px: u32, py: u32
      ensures Pixel(now, px, py) == Saturate(Pixel(before, px, py) + Partly(g, ascender, y, x + 1, px, py))
      ensures Point(px, py) in now <==> Point(px, py) in before || Partly(g, ascender, y, x + 1, px, py) > 0
    {
      assert Pixel(was, px, py) == Saturate(Pixel(before, px, py) + Partly(g, ascender, y, x, px, py));
    }
  }

  lemma AddedRow(before: Pixels, now: Pixels, g: Glyph, ascender: i32, y: nat)
    requires WholeBitmap(g) && Added(before, now, g, ascender, y, g.width)
    ensures Added(before, now, g, ascender, y + 1, 0)
  {
    forall px: u32, py: u32
      ensures Partly(g, ascender, y, g.width, px, py) == Partly(g, ascender, y + 1, 0, px, py)
    {
    }
  }

  lemma AddedAll(before: Pixels, now: Pixels, g: Glyph, ascender: i32)
    requires WholeBitmap(g) && Added(before, now, g, ascender, g.height, 0)
    ensures forall px: u32, py: u32 ::
      Pixel(now, px, py) == Saturate(Pixel(before, px, py) + Contribution(g, ascender, px, py))
    ensures forall px: u32, py: u32 ::
      Point(px, py) in now <==> Point(px, py) in before || Contribution(g, ascender, px, py) > 0
  {
    forall px: u32, py: u32
      ensures Partly(g, ascender, g.height, 0, px, py) == Contribution(g, ascender, px, py)
    {
    }
  }

  /** Byte `i` of the bitmap, which is stored row by row, lands on the pixel (px, py). */
  predicate LandsOn(g: Glyph, ascender: i32, i: nat, px: u32, py: u32)
    requires g.width > 0
  {
    px == g.left + g.posX + i % g.width && py == ascender - g.top + i / g.width
  }

  lemma RowAndColumn(w: nat, h: nat, i: nat)
    requires i < w * h
    ensures w > 0 && i % w < w && i / w < h && i / w * w + i % w == i
  {
    assert w > 0 by {
      NonNegativeProduct(h, 0);
    }
    var q := i / w;
    assert i == q * w + i % w;
    assert (h - q) * w > 0;
    ProductAtLeast(h - q, w);
  }

  lemma AtPixel(g: Glyph, ascender: i32, x: nat, y: nat, px: u32, py: u32)
    requires WholeBitmap(g) && px == g.left + g.posX + x && py == ascender - g.top + y
    ensures Contribution(g, ascender, px, py) == Coverage(g, x, y)
  {
    hide WholeBitmap, Coverage;
  }

  /** Every byte of the bitmap is what the glyph adds to the pixel that the byte lands on. */
  lemma BitmapPlaced(g: Glyph, ascender: i32, i: nat, px: u32, py: u32)
    requires WholeBitmap(g) && i < g.width * g.height
    requires g.width > 0 && LandsOn(g, ascender, i, px, py)
    ensures i < |g.data| && Contribution(g, ascender, px, py) == g.data[i] as nat
  {
    hide Coverage, Contribution;
    var w, h := g.width, g.height;
    RowAndColumn(w, h, i);
    var x, y := i % w, i / w;
    AtPixel(g, ascender, x, y, px, py);
    InBitmap(g, i, x, y);
  }

  lemma InBitmap(g: Glyph, i: nat, x: nat, y: nat)
    requires WholeBitmap(g) && i < g.width * g.height && x < g.width && y < g.height && y * g.width + x == i
    ensures i < |g.data| && Coverage(g, x, y) == g.data[i] as nat
  {
  }

  /** And the glyph adds nothing to a pixel that no byte lands on. */
  lemma NothingElsewhere(g: Glyph, ascender: i32, px: u32, py: u32)
    requires WholeBitmap(g)
    requires g.width > 0 ==> forall i: nat | i < g.width * g.height :: !LandsOn(g, ascender, i, px, py)
    ensures Contribution(g, ascender, px, py) == 0
  {
    var x, y := px - g.left - g.posX, py - ascender + g.top;
    if 0 <= x < g.width && 0 <= y < g.height {
      IndexInBitmap(g.width, g.height, x, y);
      ProductRemainder(y, g.width, x);
      RowAndColumn(g.width, g.height, y * g.width + x);
      SameQuotient(g.width, y, (y * g.width + x) / g.width);
      assert LandsOn(g, ascender, y * g.width + x, px, py);
    }
  }

  lemma SameQuotient(w: nat, a: int, b: int)
    requires w > 0 && a * w == b * w
    ensures a == b
  {
    ProductAtLeast(a - b, w);
  }

  /** Byte `i` of the bitmap is transparent, or none of the 32-bit sums that place it overflows. */
  predicate Placeable(g: Glyph, ascender: i32, i: nat)
    requires g.width > 0 && i < |g.data|
  {
    var x, y := i % g.width, i / g.width;
    g.data[i] != 0 ==>
      && g.posX + x <= 2147483647 && -2147483648 <= g.left + g.posX + x <= 2147483647
      && -2147483648 <= ascender - g.top <= 2147483647
      && y <= 2147483647 && -2147483648 <= ascender - g.top + y <= 2147483647
  }

  /** What drawing a glyph asks of its placement. */
  lemma NoOverflowExact(g: Glyph, ascender: i32)
    requires WholeBitmap(g)
    ensures NoOverflow(g, ascender) <==>
            (g.width > 0 ==> forall i: nat | i < g.width * g.height :: Placeable(g, ascender, i))
  {
    if g.width > 0 {
      if NoOverflow(g, ascender) {
        forall i: nat | i < g.width * g.height ensures Placeable(g, ascender, i) {
          RowAndColumn(g.width, g.height, i);
          InBitmap(g, i, i % g.width, i / g.width);
          PlaceableAt(g, ascender, i, i % g.width, i / g.width);
        }
      }
      if forall i: nat | i < g.width * g.height :: Placeable(g, ascender, i) {
        forall x, y | Coverage(g, x, y) > 0 ensures Fitting(g, ascender, x, y) {
          var i := PositionOf(g, x, y);
          assert Placeable(g, ascender, i);
        }
      }
    }
  }

  lemma PlaceableAt(g: Glyph, ascender: i32, i: nat, x: nat, y: nat)
    requires WholeBitmap(g) && NoOverflow(g, ascender) && g.width > 0 && i < |g.data|
    requires x == i % g.width && y == i / g.width && Coverage(g, x, y) == g.data[i] as nat
    ensures Placeable(g, ascender, i)
  {
    hide WholeBitmap, Coverage;
  }

  lemma PositionOf(g: Glyph, x: int, y: int) returns (i: nat)
    requires WholeBitmap(g) && Coverage(g, x, y) > 0
    ensures g.width > 0 && i < g.width * g.height && i < |g.data|
    ensures i % g.width == x && i / g.width == y && g.data[i] as nat == Coverage(g, x, y)
  {
    IndexInBitmap(g.width, g.height, x, y);
    i := y * g.width + x;
    ProductRemainder(y, g.width, x);
    RowAndColumn(g.width, g.height, i);
    SameQuotient(g.width, y, i / g.width);
  }

  // ---------- whole strings ----------

  ghost predicate Drawable(glyphs: seq<Glyph>, ascender: i32)
  {
    forall i :: 0 <= i < |glyphs| ==> WholeBitmap(glyphs[i]) && NoOverflow(glyphs[i], ascender)
  }

  /** The sum of everything that lands on a pixel. */
  ghost function Total(glyphs: seq<Glyph>, ascender: i32, px: u32, py: u32): nat
    requires Drawable(glyphs, ascender)
  {
    if glyphs == [] then 0
    else Total(glyphs[..|glyphs| - 1], ascender, px, py) + Contribution(glyphs[|glyphs| - 1], ascender, px, py)
  }

  /** The accumulation loop of `draw_string`: every pixel is the sum of all contributions, cut off at 255,
      and exactly the pixels that anything landed on are in the map. */
  method DrawString(glyphs: seq<Glyph>, ascender: i32, finalWidth: u32) returns (image: Image)
    requires Drawable(glyphs, ascender)
    ensures image.width == finalWidth && IsMaxY(image.pixels, image.height)
    ensures forall px: u32, py: u32 :: Pixel(image.pixels, px, py) == Saturate(Total(glyphs, ascender, px, py))
    ensures forall px: u32, py: u32 :: Point(px, py) in image.pixels <==> Total(glyphs, ascender, px, py) > 0
  {
    var pixels: Pixels := map[];
    for n := 0 to |glyphs|
      invariant Drawable(glyphs[..n], ascender)
      invariant forall px: u32, py: u32 :: Pixel(pixels, px, py) == Saturate(Total(glyphs[..n], ascender, px, py))
      invariant forall px: u32, py: u32 :: Point(px, py) in pixels <==> Total(glyphs[..n], ascender, px, py) > 0
    {
      assert glyphs[..n + 1][..n] == glyphs[..n];
      pixels := AddGlyph(pixels, glyphs[n], ascender);
    }
    assert glyphs[..|glyphs|] == glyphs;
    var height := MaxYCoordinate(pixels);
    image := Image(finalWidth, height, pixels);
  }

  /** The largest y of any pixel in the map, or 0 when there is none. */
  predicate IsMaxY(pixels: Pixels, y: u32)
  {
    && (forall p :: p in pixels ==> p.y <= y)
    && (pixels == map[] ==> y == 0)
    && (pixels != map[] ==> exists p :: p in pixels && p.y == y)
  }

  method MaxYCoordinate(pixels: Pixels) returns (maxY: u32)
    ensures IsMaxY(pixels, maxY)
  {
    maxY := 0;
    var rest := pixels.Keys;
    while rest != {}
      invariant rest <= pixels.Keys
      invariant forall p :: p in pixels && p !in rest ==> p.y <= maxY
      invariant rest == pixels.Keys ==> maxY == 0
      invariant rest != pixels.Keys ==> exists p :: p in pixels && p !in rest && p.y == maxY
      decreases |rest|
    {
      var p :| p in rest;
      rest := rest - {p};
      if p.y > maxY || rest + {p} == pixels.Keys {
        maxY := p.y;
      }
      assert p !in rest;
    }
  }

  lemma MultisetAt<T>(s: seq<T>, i: nat)
    requires i < |s|
    ensures multiset(s) == multiset(s[..i] + s[i + 1..]) + multiset{s[i]}
  {
    var front, back := s[..i], s[i + 1..];
    assert s == front + [s[i]] + back;
    assert multiset(s) == multiset(front) + multiset{s[i]} + multiset(back);
  }

  lemma MultisetCancel<T>(a: multiset<T>, b: multiset<T>, x: T)
    requires a + multiset{x} == b + multiset{x}
    ensures a == b
  {
    assert a == a + multiset{x} - multiset{x} && b == b + multiset{x} - multiset{x};
  }

  lemma MultisetRemove<T>(a: seq<T>, b: seq<T>) returns (i: nat)
    requires a != [] && multiset(a) == multiset(b)
    ensures i < |b| && b[i] == a[|a| - 1]
    ensures multiset(a[..|a| - 1]) == multiset(b[..i] + b[i + 1..])
  {
    var last := a[|a| - 1];
    MultisetAt(a, |a| - 1);
    assert a[..|a| - 1] + a[|a| - 1 + 1..] == a[..|a| - 1];
    assert last in multiset(b);
    i :| 0 <= i < |b| && b[i] == last;
    MultisetAt(b, i);
    MultisetCancel(multiset(a[..|a| - 1]), multiset(b[..i] + b[i + 1..]), last);
  }

  /** Glyph order does not matter. */
  lemma {:induction false} TotalPermuted(a: seq<Glyph>, b: seq<Glyph>, ascender: i32, px: u32, py: u32)
    requires Drawable(a, ascender) && Drawable(b, ascender) && multiset(a) == multiset(b)
    ensures Total(a, ascender, px, py) == Total(b, ascender, px, py)
  {
    hide Contribution, WholeBitmap, NoOverflow;
    if a == [] {
      assert |multiset(b)| == |b|;
      assert b == [];
    } else {
      var i := MultisetRemove(a, b);
      TotalRemove(b, i, ascender, px, py);
      TotalPermuted(a[..|a| - 1], b[..i] + b[i + 1..], ascender, px, py);
    }
  }

  lemma {:induction false} TotalRemove(b: seq<Glyph>, i: nat, ascender: i32, px: u32, py: u32)
    requires Drawable(b, ascender) && i < |b|
    ensures Drawable(b[..i] + b[i + 1..], ascender)
    ensures Total(b, ascender, px, py)
         == Total(b[..i] + b[i + 1..], ascender, px, py) + Contribution(b[i], ascender, px, py)
  {
    hide Contribution, WholeBitmap, NoOverflow;
    var rest := b[..i] + b[i + 1..];
    assert Drawable(rest, ascender) by {
      assert forall k :: 0 <= k < |rest| ==> rest[k] == b[if k < i then k else k + 1];
    }
    if i == |b| - 1 {
      assert rest == b[..|b| - 1];
    } else {
      var init := b[..|b| - 1];
      TotalRemove(init, i, ascender, px, py);
      assert rest[..|rest| - 1] == init[..i] + init[i + 1..];
    }
  }

  // ---------- the two lines of text ----------

  /** The pixels after the points in `handled` have been added, shifted down. */
  ghost predicate AddedImage(before: Pixels, now: Pixels, added: Pixels, handled: set<Point>, down: u32)
  {
    && (forall px: u32, py: u32 ::
          Pixel(now, px, py) == Saturate(Pixel(before, px, py) + Shifted(added, handled, down, px, py)))
    && (forall px: u32, py: u32 ::
          Point(px, py) in now <==> Point(px, py) in before || ShiftedFrom(handled, down, px, py))
  }

  /** The alpha at (px, py) of an image shifted down. */
  function Lowered(pixels: Pixels, down: u32, px: u32, py: u32): nat
  {
    if py >= down then Pixel(pixels, px, py - down) else 0
  }

  function Shifted(added: Pixels, handled: set<Point>, down: u32, px: u32, py: u32): nat
  {
    if ShiftedFrom(handled, down, px, py) then Pixel(added, px, py - down) else 0
  }

  /** One of the points lands on (px, py) when shifted down. */
  predicate ShiftedFrom(points: set<Point>, down: u32, px: u32, py: u32)
  {
    py >= down && Point(px, py - down) in points
  }

  lemma NothingAdded(before: Pixels, added: Pixels, down: u32)
    ensures AddedImage(before, before, added, {}, down)
  {
  }

  lemma AddedPoint(before: Pixels, now: Pixels, added: Pixels, handled: set<Point>, down: u32, p: Point)
    requires AddedImage(before, now, added, handled, down)
    requires p in added && p !in handled && p.y + down < 0x1_0000_0000
    ensures AddedImage(before, AddTo(now, p.x, p.y + down, added[p]), added, handled + {p}, down)
  {
    var next := AddTo(now, p.x, p.y + down, added[p]);
    forall px: u32, py: u32
      ensures Pixel(next, px, py) == Saturate(Pixel(before, px, py) + Shifted(added, handled + {p}, down, px, py))
      ensures Point(px, py) in next <==>
              Point(px, py) in before || ShiftedFrom(handled + {p}, down, px, py)
    {
      assert Pixel(now, px, py) == Saturate(Pixel(before, px, py) + Shifted(added, handled, down, px, py));
      assert py >= down && Point(px, py - down) == p <==> px == p.x && py == p.y + down;
    }
  }

  lemma AddedAllPoints(before: Pixels, now: Pixels, added: Pixels, down: u32)
    requires AddedImage(before, now, added, added.Keys, down)
    ensures forall px: u32, py: u32 ::
      Pixel(now, px, py) == Saturate(Pixel(before, px, py) + Lowered(added, down, px, py))
    ensures forall px: u32, py: u32 ::
      Point(px, py) in now <==> Point(px, py) in before || ShiftedFrom(added.Keys, down, px, py)
  {
    forall px: u32, py: u32
      ensures Pixel(now, px, py) == Saturate(Pixel(before, px, py) + Lowered(added, down, px, py))
    {
      assert Shifted(added, added.Keys, down, px, py) == Lowered(added, down, px, py);
    }
  }

  /** One of the two loops of `draw_text`, which go through a hash map in no particular order: adds an
      image, shifted down, to the pixels. */
  method AddImage(before: Pixels, added: Pixels, down: u32) returns (pixels: Pixels)
    requires forall p :: p in added ==> p.y + down < 0x1_0000_0000
    ensures forall px: u32, py: u32 ::
      Pixel(pixels, px, py) == Saturate(Pixel(before, px, py) + Lowered(added, down, px, py))
    ensures forall px: u32, py: u32 ::
      Point(px, py) in pixels <==> Point(px, py) in before || ShiftedFrom(added.Keys, down, px, py)
  {
    hide Pixel, Shifted, Lowered, Saturate, AddTo, AddedImage;
    pixels := before;
    var rest := added.Keys;
    assert AddedImage(before, pixels, added, {}, down) by {
      NothingAdded(before, added, down);
    }
    assert added.Keys - rest == {};
    while rest != {}
      invariant rest <= added.Keys
      invariant AddedImage(before, pixels, added, added.Keys - rest, down)
      decreases |rest|
    {
      var p :| p in rest;
      AddedPoint(before, pixels, added, added.Keys - rest, down, p);
      assert added.Keys - (rest - {p}) == added.Keys - rest + {p};
      pixels := AddTo(pixels, p.x, p.y + down, added[p]);
      rest := rest - {p};
    }
    assert added.Keys - rest == added.Keys;
    AddedAllPoints(before, pixels, added, down);
  }

  /** Cutting off at 255 on the way does not change the sum cut off at 255. */
  lemma ComposedPixel(none: Pixels, upper: Pixels, first: Pixels, lower: Pixels, all: Pixels, spacing: u32,
      px: u32, py: u32, a: nat, b: nat)
    requires none == map[] && Pixel(upper, px, py) == Saturate(a)
    requires py < spacing ==> b == 0
    requires py >= spacing ==> Pixel(lower, px, py - spacing) == Saturate(b)
    requires Pixel(first, px, py) == Saturate(Pixel(none, px, py) + Lowered(upper, 0, px, py))
    requires Pixel(all, px, py)
          == Saturate(Pixel(first, px, py) + Lowered(lower, spacing, px, py))
    ensures Pixel(all, px, py) == Saturate(a + b)
  {
  }

  /** A line of text: its glyphs with the integer parts of their pen positions, and its metrics. */
  datatype Line = Line(glyphs: seq<Glyph>, ascender: i32, width: u32)

  /** What the two lines add to a pixel, the lower one shifted down by the baseline spacing. */
  ghost function TotalOfLines(upper: Line, lower: Line, spacing: u32, px: u32, py: u32): nat
    requires Drawable(upper.glyphs, upper.ascender) && Drawable(lower.glyphs, lower.ascender)
  {
    Total(upper.glyphs, upper.ascender, px, py)
    + if py >= spacing then Total(lower.glyphs, lower.ascender, px, py - spacing) else 0
  }

  lemma Composed(upper: Line, lower: Line, spacing: u32, none: Pixels, up: Pixels, first: Pixels, low: Pixels,
      all: Pixels)
    requires Drawable(upper.glyphs, upper.ascender) && Drawable(lower.glyphs, lower.ascender) && none == map[]
    requires forall px: u32, py: u32 :: Pixel(up, px, py) == Saturate(Total(upper.glyphs, upper.ascender, px, py))
    requires forall px: u32, py: u32 :: Pixel(low, px, py) == Saturate(Total(lower.glyphs, lower.ascender, px, py))
    requires forall px: u32, py: u32 ::
      Pixel(first, px, py) == Saturate(Pixel(none, px, py) + Lowered(up, 0, px, py))
    requires forall px: u32, py: u32 ::
      Pixel(all, px, py) == Saturate(Pixel(first, px, py) + Lowered(low, spacing, px, py))
    ensures forall px: u32, py: u32 :: Pixel(all, px, py) == Saturate(TotalOfLines(upper, lower, spacing, px, py))
  {
    hide Pixel, Lowered, Total, Drawable, Saturate;
    forall px: u32, py: u32
      ensures Pixel(all, px, py) == Saturate(TotalOfLines(upper, lower, spacing, px, py))
    {
      ComposedPixel(none, up, first, low, all, spacing, px, py, Total(upper.glyphs, upper.ascender, px, py),
                    if py >= spacing then Total(lower.glyphs, lower.ascender, px, py - spacing) else 0);
    }
  }

  lemma ComposedKeys(upper: Line, lower: Line, spacing: u32, up: Pixels, first: Pixels, low: Pixels, all: Pixels)
    requires Drawable(upper.glyphs, upper.ascender) && Drawable(lower.glyphs, lower.ascender)
    requires forall px: u32, py: u32 :: Point(px, py) in up <==> Total(upper.glyphs, upper.ascender, px, py) > 0
    requires forall px: u32, py: u32 :: Point(px, py) in low <==> Total(lower.glyphs, lower.ascender, px, py) > 0
    requires forall px: u32, py: u32 :: Point(px, py) in first <==> ShiftedFrom(up.Keys, 0, px, py)
    requires forall px: u32, py: u32 ::
      Point(px, py) in all <==> Point(px, py) in first || ShiftedFrom(low.Keys, spacing, px, py)
    ensures forall px: u32, py: u32 :: Point(px, py) in all <==> TotalOfLines(upper, lower, spacing, px, py) > 0
  {
    hide Total, Drawable;
    forall px: u32, py: u32 ensures Point(px, py) in all <==> TotalOfLines(upper, lower, spacing, px, py) > 0 {
      assert ShiftedFrom(up.Keys, 0, px, py) <==> Point(px, py) in up;
      if py >= spacing {
        assert ShiftedFrom(low.Keys, spacing, px, py) <==> Point(px, py - spacing) in low;
      }
    }
  }

  /** `draw_text`: every pixel of the whole image is the sum of everything that lands on it, cut off at 255, and
      the map holds exactly the pixels that anything lands on, which determines the height. */
  method DrawText(upper: Line, lower: Line, spacing: u32) returns (image: Image)
    requires Drawable(upper.glyphs, upper.ascender) && Drawable(lower.glyphs, lower.ascender)
    requires forall px: u32, py: u32 ::
      Total(lower.glyphs, lower.ascender, px, py) > 0 ==> py + spacing < 0x1_0000_0000
    ensures forall px: u32, py: u32 ::
      Pixel(image.pixels, px, py) == Saturate(TotalOfLines(upper, lower, spacing, px, py))
    ensures forall px: u32, py: u32 ::
      Point(px, py) in image.pixels <==> TotalOfLines(upper, lower, spacing, px, py) > 0
    ensures image.width == (if upper.width > lower.width then upper.width else lower.width)
    ensures IsMaxY(image.pixels, image.height)
  {
    hide Pixel, Lowered, Total, TotalOfLines, IsMaxY, Drawable, ShiftedFrom, Saturate;
    var upperImage := DrawString(upper.glyphs, upper.ascender, upper.width);
    var lowerImage := DrawString(lower.glyphs, lower.ascender, lower.width);
    forall p: Point | p in lowerImage.pixels ensures p.y + spacing < 0x1_0000_0000 {
      assert p == Point(p.x, p.y);
    }
    var none: Pixels := map[];
    var first := AddImage(none, upperImage.pixels, 0);
    var pixels := AddImage(first, lowerImage.pixels, spacing);
    Composed(upper, lower, spacing, none, upperImage.pixels, first, lowerImage.pixels, pixels);
    assert forall px: u32, py: u32 :: Point(px, py) in first <==> ShiftedFrom(upperImage.pixels.Keys, 0, px, py);
    ComposedKeys(upper, lower, spacing, upperImage.pixels, first, lowerImage.pixels, pixels);
    var height := MaxYCoordinate(pixels);
    image := Image(if upperImage.width > lowerImage.width then upperImage.width else lowerImage.width, height, pixels);
  }

  // ---------- the pixel buffer ----------

  /** The bytes of the first `n` pixels of row `y`: alpha, and white premultiplied by it. */
  function RowBytes(image: Image, y: u32, n: nat): (bytes: seq<byte>)
    requires n <= 0x1_0000_0000
    ensures |bytes| == 4 * n
  {
    if n == 0 then []
    else
      var a := Pixel(image.pixels, n - 1, y) as byte;
      RowBytes(image, y, n - 1) + [a, a, a, a]
  }

  function Rows(image: Image, n: nat): (bytes: seq<byte>)
    requires n <= 0x1_0000_0000
    ensures |bytes| == 4 * (n * image.width)
  {
    if n == 0 then [] else Rows(image, n - 1) + RowBytes(image, n - 1, image.width)
  }

  lemma DigitsStep(a: byte, higher: nat, n: nat)
    ensures Digits(higher * 0x100 + a as nat, n + 1) == [a] + Digits(higher, n)
  {
    var v := higher * 0x100 + a as nat;
    assert v % 0x100 == a as nat && v / 0x100 == higher;
  }

  /** `to_le_bytes` of a word whose four bytes are all the same. */
  lemma SameFourBytes(a: byte)
    ensures Digits(a as nat * 0x100_0000 + a as nat * 0x1_0000 + a as nat * 0x100 + a as nat, 4) == [a, a, a, a]
  {
    var n := a as nat;
    DigitsStep(a, 0, 0);
    DigitsStep(a, n, 1);
    DigitsStep(a, n * 0x100 + n, 2);
    DigitsStep(a, n * 0x1_0000 + n * 0x100 + n, 3);
  }

  /** The bytes of a buffer of four-byte pixels. */
  function BufferLength(width: nat, height: nat): nat
  {
    width * height * 4
  }

  /** `to_white_argb_le`: the number of bytes is a 32-bit product, which must not overflow; then the nested loops. */
  method ToWhiteArgbLe(image: Image) returns (bytes: Option<seq<byte>>)
    ensures bytes == if BufferLength(image.width, image.height) < 0x1_0000_0000
                     then Some(Rows(image, image.height)) else None
  {
    if BufferLength(image.width, image.height) >= 0x1_0000_0000 {
      return None;
    }
    hide BufferLength, Digits, Pixel;
    var pixels := [];
    for y := 0 to image.height
      invariant pixels == Rows(image, y)
    {
      for x := 0 to image.width
        invariant pixels == Rows(image, y) + RowBytes(image, y, x)
      {
        var alpha := Pixel(image.pixels, x, y);
        var argb := alpha * 0x100_0000 + alpha * 0x1_0000 + alpha * 0x100 + alpha;
        SameFourBytes(alpha as byte);
        pixels := pixels + Digits(argb, 4);
      }
    }
    bytes := Some(pixels);
  }

  /** The buffer holds four bytes a pixel, row by row; the four bytes of pixel (x, y) are its alpha. */
  lemma {:induction false} BufferLayout(image: Image, n: nat, x: u32, y: u32, k: nat)
    requires x < image.width && y < n <= 0x1_0000_0000 && k < 4
    ensures 4 * (y * image.width + x) + k < |Rows(image, n)|
    ensures Rows(image, n)[4 * (y * image.width + x) + k] as nat == Pixel(image.pixels, x, y)
  {
    IndexInBitmap(image.width, n, x, y);
    if y < n - 1 {
      IndexInBitmap(image.width, n - 1, x, y);
      BufferLayout(image, n - 1, x, y, k);
    } else {
      RowLayout(image, y, image.width, x, k);
    }
  }

  lemma {:induction false} RowLayout(image: Image, y: u32, n: nat, x: u32, k: nat)
    requires x < n <= 0x1_0000_0000 && k < 4
    ensures RowBytes(image, y, n)[4 * x + k] as nat == Pixel(image.pixels, x, y)
  {
    if x < n - 1 {
      RowLayout(image, y, n - 1, x, k);
    }
  }

  // ---------- rounding up ----------

  /** The least multiple of `s` that is not below `n`. */
  predicate LeastMultiple(n: nat, s: nat, r: nat)
    requires s > 0
  {
    n <= r && r % s == 0 && forall k :: n <= k < r ==> k % s != 0
  }

  function RoundUp(n: nat, s: nat): (r: nat)
    requires s > 0
  {
    if n % s == 0 then n else n + (s - n % s)
  }

  lemma RoundUpIsLeast(n: nat, s: nat)
    requires s > 0
    ensures LeastMultiple(n, s, RoundUp(n, s))
  {
    var q, r := n / s, RoundUp(n, s);
    assert n == q * s + n % s;
    if n % s != 0 {
      assert r == (q + 1) * s;
      ProductRemainder(q + 1, s, 0);
      forall k | n <= k < r ensures k % s != 0 {
        ProductRemainder(q, s, k - q * s);
      }
    }
  }

  /** `while size % scale != 0 { size += 1 }`, which panics if the size leaves 32 bits. */
  method RoundUpLoop(size: u32, scale: nat) returns (rounded: Option<u32>)
    requires scale > 0
    ensures rounded == if RoundUp(size, scale) < 0x1_0000_0000 then Some(RoundUp(size, scale)) else None
  {
    RoundUpIsLeast(size, scale);
    var n: nat := size;
    while n % scale != 0
      invariant size <= n <= RoundUp(size, scale) && n < 0x1_0000_0000
      invariant forall k :: size <= k < n ==> k % scale != 0
      decreases RoundUp(size, scale) - n
    {
      if n + 1 == 0x1_0000_0000 {
        return None;
      }
      n := n + 1;
    }
    rounded := Some(n);
  }

  /** The image with its sizes rounded up, as it is turned into the buffer. */
  function Rounded(image: Image, scale: nat): (r: Image)
    requires scale > 0 && RoundUp(image.width, scale) < 0x1_0000_0000 && RoundUp(image.height, scale) < 0x1_0000_0000
  {
    Image(RoundUp(image.width, scale), RoundUp(image.height, scale), image.pixels)
  }

  /** The height is the largest y in the image. Its row is in the buffer if rounding enlarges the height. */
  lemma LastRowShown(image: Image, scale: nat, x: u32, k: nat, at: nat)
    requires scale > 0 && RoundUp(image.width, scale) < 0x1_0000_0000 && RoundUp(image.height, scale) < 0x1_0000_0000
    requires image.height % scale != 0 && x < image.width && k < 4
    requires at == 4 * (image.height * Rounded(image, scale).width + x) + k
    ensures at < |Rows(Rounded(image, scale), Rounded(image, scale).height)|
    ensures Rows(Rounded(image, scale), Rounded(image, scale).height)[at] as nat == Pixel(image.pixels, x, image.height)
  {
    RoundUpIsLeast(image.width, scale);
    var r := Rounded(image, scale);
    BufferLayout(r, r.height, x, image.height, k);
  }

  /** And if rounding does not enlarge the height, no pixel of that row has any effect on the buffer. */
  lemma LastRowLost(image: Image, scale: nat, other: Pixels)
    requires scale > 0 && RoundUp(image.width, scale) < 0x1_0000_0000
    requires image.height % scale == 0
    requires forall x: u32, y: u32 :: y < image.height ==> Pixel(other, x, y) == Pixel(image.pixels, x, y)
    ensures Rows(Rounded(image, scale), image.height) == Rows(Rounded(image.(pixels := other), scale), image.height)
  {
    SameRows(Rounded(image, scale), Rounded(image.(pixels := other), scale), image.height);
  }

  lemma {:induction false} SameRows(a: Image, b: Image, n: u32)
    requires a.width == b.width
    requires forall x: u32, y: u32 :: y < n ==> Pixel(a.pixels, x, y) == Pixel(b.pixels, x, y)
    ensures Rows(a, n) == Rows(b, n)
  {
    if n > 0 {
      SameRows(a, b, n - 1);
      SameRow(a, b, n - 1, a.width);
    }
  }

  lemma {:induction false} SameRow(a: Image, b: Image, y: u32, n: u32)
    requires forall x: u32 :: Pixel(a.pixels, x, y) == Pixel(b.pixels, x, y)
    ensures RowBytes(a, y, n) == RowBytes(b, y, n)
  {
    if n > 0 {
      SameRow(a, b, y, n - 1);
    }
  }
}
