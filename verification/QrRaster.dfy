/** The raster behind the pairing code: a flat BGRA buffer painted module by module. */
module QrRaster {
  const MODULE_PIXELS: nat := 8
  const QUIET_MODULES: nat := 4

  type Byte = b: int | 0 <= b < 256

  /** Which pixels are inked, by column and row. */
  type Ink = (int, int) -> bool

  function Side(width: nat): nat {
    (width + QUIET_MODULES * 2) * MODULE_PIXELS
  }

  /** The number of a pixel in the buffer, row by row. */
  function PixelAt(side: nat, x: nat, y: nat): nat {
    y * side + x
  }

  predicate OnImage(side: nat, x: int, y: int) {
    0 <= x < side && 0 <= y < side
  }

  /** Four bytes a pixel: black or white, and opaque. */
  ghost predicate Shows(pixels: seq<Byte>, side: nat, ink: Ink) {
    && |pixels| == side * side * 4
    && forall x, y :: OnImage(side, x, y) ==> PixelShows(pixels, PixelAt(side, x, y), ink(x, y))
  }

  predicate PixelShows(pixels: seq<Byte>, n: nat, inked: bool) {
    && n * 4 + 3 < |pixels|
    && var shade := if inked then 0 else 255;
       pixels[n * 4] == shade && pixels[n * 4 + 1] == shade && pixels[n * 4 + 2] == shade && pixels[n * 4 + 3] == 255
  }

  /** The rule for one pixel: take off the border, divide by eight, and look the module up. */
  predicate IsDark(modules: seq<bool>, width: nat, x: int, y: int)
    requires |modules| == width * width
  {
    var column, row := x / MODULE_PIXELS - QUIET_MODULES, y / MODULE_PIXELS - QUIET_MODULES;
    0 <= column < width && 0 <= row < width && (CellInside(width, column, row); modules[row * width + column])
  }

  /** The module in `column` and `row` is a square of eight by eight pixels, four such squares in from the
      corner; everything around the modules is light. */
  lemma ModuleSquare(modules: seq<bool>, width: nat, column: nat, row: nat, x: nat, y: nat)
    requires |modules| == width * width && column < width && row < width
    requires 8 * column + 32 <= x < 8 * column + 40 && 8 * row + 32 <= y < 8 * row + 40
    ensures 0 <= row * width + column < |modules|
    ensures IsDark(modules, width, x, y) == modules[row * width + column]
  {
    CellInside(width, column, row);
    assert x / 8 - 4 == column && y / 8 - 4 == row;
  }

  lemma BorderIsLight(modules: seq<bool>, width: nat, x: nat, y: nat)
    requires |modules| == width * width
    requires x < 32 || y < 32 || x >= 8 * width + 32 || y >= 8 * width + 32
    ensures !IsDark(modules, width, x, y)
  {
  }

  /** The four bytes of a pixel, row by row from the top: three of its shade and an opaque alpha. */
  lemma PixelBytes(pixels: seq<Byte>, side: nat, ink: Ink, x: nat, y: nat)
    requires Shows(pixels, side, ink) && x < side && y < side
    ensures |pixels| == side * side * 4 && 0 <= (y * side + x) * 4 && (y * side + x) * 4 + 3 < |pixels|
    ensures pixels[(y * side + x) * 4..(y * side + x) * 4 + 4]
      == if ink(x, y) then [0, 0, 0, 255] else [255, 255, 255, 255]
  {
    assert OnImage(side, x, y);
    assert PixelShows(pixels, PixelAt(side, x, y), ink(x, y));
  }

  lemma CellInside(width: nat, column: nat, row: nat)
    requires column < width && row < width
    ensures 0 <= row * width + column < width * width
  {
    assert row * width <= (width - 1) * width;
  }

  lemma PixelInside(side: nat, x: nat, y: nat)
    requires x < side && y < side
    ensures PixelAt(side, x, y) < side * side
  {
    CellInside(side, x, y);
  }

  lemma PixelsDiffer(side: nat, x: nat, y: nat, a: nat, b: nat)
    requires x < side && a < side && (x != a || y != b)
    ensures PixelAt(side, x, y) != PixelAt(side, a, b)
  {
    if y < b {
      assert (y + 1) * side <= b * side;
    } else if b < y {
      assert (b + 1) * side <= y * side;
    }
  }

  // ----- painting

  /** Paints one pixel black. */
  method PaintPixel(pixels: array<Byte>, side: nat, ghost x: nat, ghost y: nat, n: nat, ghost before: Ink,
                    ghost after: Ink)
    requires OnImage(side, x, y) && n == PixelAt(side, x, y)
    requires Shows(pixels[..], side, before)
    requires forall a, b :: after(a, b) == (before(a, b) || (a == x && b == y))
    modifies pixels
    ensures Shows(pixels[..], side, after)
  {
    PixelInside(side, x, y);
    ghost var was := pixels[..];
    assert PixelShows(was, n, before(x, y));
    var offset := n * 4;
    pixels[offset] := 0;
    pixels[offset + 1] := 0;
    pixels[offset + 2] := 0;
    pixels[offset + 3] := 255;
    forall a, b | OnImage(side, a, b) ensures PixelShows(pixels[..], PixelAt(side, a, b), after(a, b)) {
      if a != x || b != y {
        PixelsDiffer(side, x, y, a, b);
        OthersStay(was, pixels[..], n, PixelAt(side, a, b), before(a, b));
      }
    }
  }

  lemma OthersStay(was: seq<Byte>, now: seq<Byte>, painted: nat, n: nat, inked: bool)
    requires n != painted && |now| == |was| && PixelShows(was, n, inked)
    requires forall k :: 0 <= k < |was| && !(painted * 4 <= k <= painted * 4 + 3) ==> now[k] == was[k]
    ensures PixelShows(now, n, inked)
  {
  }

  /** Inside the square of one module: the rows above `y`, and row `y` left of `x`. */
  predicate PartOf(moduleX: nat, moduleY: nat, x: nat, y: nat, a: int, b: int) {
    && a / MODULE_PIXELS == moduleX && b / MODULE_PIXELS == moduleY
    && (b % MODULE_PIXELS < y || (b % MODULE_PIXELS == y && a % MODULE_PIXELS < x))
  }

  ghost function WithPart(ink: Ink, moduleX: nat, moduleY: nat, x: nat, y: nat): Ink {
    (a, b) => ink(a, b) || PartOf(moduleX, moduleY, x, y, a, b)
  }

  lemma OneMorePixel(moduleX: nat, moduleY: nat, x: nat, y: nat, a: int, b: int)
    requires x < MODULE_PIXELS && y < MODULE_PIXELS
    ensures PartOf(moduleX, moduleY, x + 1, y, a, b)
         <==> (PartOf(moduleX, moduleY, x, y, a, b)
               || (a == moduleX * MODULE_PIXELS + x && b == moduleY * MODULE_PIXELS + y))
  {
  }

  lemma NextRow(moduleX: nat, moduleY: nat, y: nat, a: int, b: int)
    ensures PartOf(moduleX, moduleY, MODULE_PIXELS, y, a, b) <==> PartOf(moduleX, moduleY, 0, y + 1, a, b)
  {
  }

  /** The inner two loops: one dark module. */
  method PaintModule(pixels: array<Byte>, side: nat, moduleX: nat, moduleY: nat, ghost ink: Ink)
    requires (moduleX + 1) * MODULE_PIXELS <= side && (moduleY + 1) * MODULE_PIXELS <= side
    requires Shows(pixels[..], side, ink)
    modifies pixels
    ensures Shows(pixels[..], side, WithPart(ink, moduleX, moduleY, 0, MODULE_PIXELS))
  {
    hide Shows;
    SameInk(pixels[..], side, ink, WithPart(ink, moduleX, moduleY, 0, 0));
    for y := 0 to MODULE_PIXELS
      invariant Shows(pixels[..], side, WithPart(ink, moduleX, moduleY, 0, y))
    {
      var row := (moduleY * MODULE_PIXELS + y) * side;
      for x := 0 to MODULE_PIXELS
        invariant Shows(pixels[..], side, WithPart(ink, moduleX, moduleY, x, y))
      {
        ghost var before, after := WithPart(ink, moduleX, moduleY, x, y), WithPart(ink, moduleX, moduleY, x + 1, y);
        forall a, b ensures after(a, b)
            == (before(a, b) || (a == moduleX * MODULE_PIXELS + x && b == moduleY * MODULE_PIXELS + y)) {
          OneMorePixel(moduleX, moduleY, x, y, a, b);
        }
        PaintPixel(pixels, side, moduleX * MODULE_PIXELS + x, moduleY * MODULE_PIXELS + y,
                   row + moduleX * MODULE_PIXELS + x, before, after);
      }
      forall a, b ensures PartOf(moduleX, moduleY, MODULE_PIXELS, y, a, b) <==>
        PartOf(moduleX, moduleY, 0, y + 1, a, b) {
        NextRow(moduleX, moduleY, y, a, b);
      }
      SameInk(pixels[..], side, WithPart(ink, moduleX, moduleY, MODULE_PIXELS, y),
              WithPart(ink, moduleX, moduleY, 0, y + 1));
    }
  }

  lemma SameInk(pixels: seq<Byte>, side: nat, p: Ink, q: Ink)
    requires Shows(pixels, side, p) && forall a, b :: OnImage(side, a, b) ==> p(a, b) == q(a, b)
    ensures Shows(pixels, side, q)
  {
  }

  /** What the first `n` modules ink. */
  predicate Inked(modules: seq<bool>, width: nat, n: nat, a: int, b: int)
    requires |modules| == width * width
  {
    var column, row := a / MODULE_PIXELS - QUIET_MODULES, b / MODULE_PIXELS - QUIET_MODULES;
    0 <= column < width && 0 <= row < width
    && (CellInside(width, column, row); row * width + column < n && modules[row * width + column])
  }

  ghost function FirstModules(modules: seq<bool>, width: nat, n: nat): Ink
    requires |modules| == width * width
  {
    (a, b) => Inked(modules, width, n, a, b)
  }

  lemma CellOf(width: nat, index: nat, column: nat, row: nat)
    requires column < width
    ensures row * width + column == index <==> column == index % width && row == index / width
  {
    DivideCell(width, column, row);
    assert index == width * (index / width) + index % width;
  }

  lemma Multiplied(a: nat, b: nat, w: nat)
    ensures a <= b ==> a * w <= b * w
  {
  }

  lemma DivideCell(width: nat, column: nat, row: nat)
    requires column < width
    ensures (row * width + column) / width == row && (row * width + column) % width == column
  {
    var n := row * width + column;
    var quotient := n / width;
    assert n == width * quotient + n % width;
    Multiplied(quotient + 1, row, width);
    Multiplied(row + 1, quotient, width);
  }

  lemma ModuleInks(modules: seq<bool>, width: nat, index: nat, a: int, b: int)
    requires |modules| == width * width && index < |modules| && modules[index]
    ensures Inked(modules, width, index + 1, a, b)
         <==> Inked(modules, width, index, a, b)
              || PartOf(index % width + QUIET_MODULES, index / width + QUIET_MODULES, 0, MODULE_PIXELS, a, b)
  {
    var column, row := a / MODULE_PIXELS - QUIET_MODULES, b / MODULE_PIXELS - QUIET_MODULES;
    CellPlace(width, index);
    if 0 <= column < width && 0 <= row < width {
      CellOf(width, index, column, row);
    }
  }

  lemma LightInksNothing(modules: seq<bool>, width: nat, index: nat, a: int, b: int)
    requires |modules| == width * width && index < |modules| && !modules[index]
    ensures Inked(modules, width, index + 1, a, b) == Inked(modules, width, index, a, b)
  {
  }

  lemma CellPlace(width: nat, index: nat)
    requires index < width * width
    ensures index % width < width && index / width < width
  {
    assert width > 0 && index == width * (index / width) + index % width;
    Multiplied(width, index / width, width);
  }

  lemma ModuleFits(width: nat, index: nat)
    requires index < width * width
    ensures (index % width + QUIET_MODULES + 1) * MODULE_PIXELS <= Side(width)
    ensures (index / width + QUIET_MODULES + 1) * MODULE_PIXELS <= Side(width)
  {
    CellPlace(width, index);
  }

  /** Every pixel is black exactly where the module under it exists and is dark, and white elsewhere;
      all are opaque. */
  method QrPixels(modules: seq<bool>, width: nat) returns (side: nat, pixels: array<Byte>)
    requires |modules| == width * width
    ensures fresh(pixels) && side == (width + 8) * 8
    ensures Shows(pixels[..], side, (x, y) => IsDark(modules, width, x, y))
  {
    side := Side(width);
    assert side == (width + 8) * 8;
    pixels := new Byte[side * side * 4](_ => 255);
    BlankStep(pixels[..], side, modules, width);
    hide *;
    for index := 0 to |modules|
      invariant Shows(pixels[..], side, FirstModules(modules, width, index))
    {
      if !modules[index] {
        LightStep(pixels[..], side, modules, width, index);
        continue;
      }
      CellPlace(width, index);
      ModuleFits(width, index);
      var moduleX := index % width + QUIET_MODULES;
      var moduleY := index / width + QUIET_MODULES;
      PaintModule(pixels, side, moduleX, moduleY, FirstModules(modules, width, index));
      DarkStep(pixels[..], side, modules, width, index, moduleX, moduleY);
    }
    AllModules(pixels[..], side, modules, width);
  }

  lemma BlankStep(pixels: seq<Byte>, side: nat, modules: seq<bool>, width: nat)
    requires |modules| == width * width
    requires |pixels| == side * side * 4 && forall k :: 0 <= k < |pixels| ==> pixels[k] == 255
    ensures Shows(pixels, side, FirstModules(modules, width, 0))
  {
    hide Shows;
    BlankShows(pixels, side, FirstModules(modules, width, 0));
  }

  lemma LightStep(pixels: seq<Byte>, side: nat, modules: seq<bool>, width: nat, index: nat)
    requires |modules| == width * width && index < |modules| && !modules[index]
    requires Shows(pixels, side, FirstModules(modules, width, index))
    ensures Shows(pixels, side, FirstModules(modules, width, index + 1))
  {
    hide Shows, Inked;
    forall a, b ensures Inked(modules, width, index + 1, a, b) == Inked(modules, width, index, a, b) {
      LightInksNothing(modules, width, index, a, b);
    }
    SameInk(pixels, side, FirstModules(modules, width, index), FirstModules(modules, width, index + 1));
  }

  lemma DarkStep(pixels: seq<Byte>, side: nat, modules: seq<bool>, width: nat, index: nat, moduleX: nat, moduleY: nat)
    requires |modules| == width * width && index < |modules| && modules[index] && width > 0
    requires moduleX == index % width + QUIET_MODULES && moduleY == index / width + QUIET_MODULES
    requires Shows(pixels, side, WithPart(FirstModules(modules, width, index), moduleX, moduleY, 0, MODULE_PIXELS))
    ensures Shows(pixels, side, FirstModules(modules, width, index + 1))
  {
    hide Shows, Inked, PartOf;
    var ink := FirstModules(modules, width, index);
    forall a, b ensures Inked(modules, width, index + 1, a, b)
        == (Inked(modules, width, index, a, b) || PartOf(moduleX, moduleY, 0, MODULE_PIXELS, a, b)) {
      ModuleInks(modules, width, index, a, b);
    }
    SameInk(pixels, side, WithPart(ink, moduleX, moduleY, 0, MODULE_PIXELS), FirstModules(modules, width, index + 1));
  }

  lemma BlankShows(pixels: seq<Byte>, side: nat, ink: Ink)
    requires |pixels| == side * side * 4 && forall k :: 0 <= k < |pixels| ==> pixels[k] == 255
    requires forall a, b :: !ink(a, b)
    ensures Shows(pixels, side, ink)
  {
    forall x, y | OnImage(side, x, y) ensures PixelShows(pixels, PixelAt(side, x, y), ink(x, y)) {
      PixelInside(side, x, y);
    }
  }

  lemma AllModules(pixels: seq<Byte>, side: nat, modules: seq<bool>, width: nat)
    requires |modules| == width * width
    requires Shows(pixels, side, FirstModules(modules, width, |modules|))
    ensures Shows(pixels, side, (x, y) => IsDark(modules, width, x, y))
  {
    hide Shows;
    forall a, b ensures Inked(modules, width, |modules|, a, b) == IsDark(modules, width, a, b) {
      var column, row := a / MODULE_PIXELS - QUIET_MODULES, b / MODULE_PIXELS - QUIET_MODULES;
      if 0 <= column < width && 0 <= row < width {
        CellInside(width, column, row);
      }
    }
    SameInk(pixels, side, FirstModules(modules, width, |modules|), (x, y) => IsDark(modules, width, x, y));
  }
}
