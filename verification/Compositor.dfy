/** Character billboards: body-part sprites recoloured and stacked, back to front, on one canvas. */
module Compositor {
  import opened Options

  // ----- texels -----

  /** The byte of `c` that starts at bit 8 * k. */
  function Red(c: int): (r: int)
    ensures 0 <= r < 256
  {
    c / 0x10000 % 256
  }

  function Green(c: int): (g: int)
    ensures 0 <= g < 256
  {
    c / 0x100 % 256
  }

  function Blue(c: int): (b: int)
    ensures 0 <= b < 256
  {
    c % 256
  }

  function Rgb(r: int, g: int, b: int): int {
    r * 0x10000 + g * 0x100 + b
  }

  /** The product of two channels, scaled back to a channel. */
  function Scaled(x: int, y: int): (z: int)
    requires 0 <= x < 256 && 0 <= y < 256
    ensures 0 <= z < 256
  {
    ProductBound(x, y);
    x * y / 256
  }

  lemma ProductBound(x: int, y: int)
    requires 0 <= x < 256 && 0 <= y < 256
    ensures 0 <= x * y <= 255 * 255
  {
    assert x * y <= x * 255;
  }

  function Tinted(c: int, tint: int): int {
    Rgb(Scaled(Red(c), Red(tint)), Scaled(Green(c), Green(tint)), Scaled(Blue(c), Blue(tint)))
  }

  predicate Grey(c: int) {
    Red(c) == Green(c) == Blue(c)
  }

  predicate SkinTone(c: int) {
    Red(c) == 255 && Green(c) == Blue(c)
  }

  /** Grey texels take the dye, skin-toned ones the skin colour; a colour of 0 stands for white. */
  function RecolourTexel(c: int, dye: int, skin: int): int {
    if Grey(c) then Tinted(c, if dye == 0 then 0xffffff else dye)
    else if SkinTone(c) then Tinted(c, if skin == 0 then 0xffffff else skin)
    else c
  }

  lemma Channels(c: int)
    requires 0 <= c <= 0xffffff
    ensures c == Rgb(Red(c), Green(c), Blue(c))
  {
    var q, b := c / 0x100, c % 0x100;
    var r, g := q / 0x100, q % 0x100;
    assert c == 0x100 * q + b && q == 0x100 * r + g;
    assert 0 <= r < 0x100;
    assert c == 0x10000 * r + (0x100 * g + b) && 0 <= 0x100 * g + b < 0x10000;
    assert c / 0x10000 == r;
  }

  lemma RgbChannels(r: int, g: int, b: int)
    requires 0 <= r < 256 && 0 <= g < 256 && 0 <= b < 256
    ensures 0 <= Rgb(r, g, b) <= 0xffffff
    ensures Red(Rgb(r, g, b)) == r && Green(Rgb(r, g, b)) == g && Blue(Rgb(r, g, b)) == b
  {
  }

  /** A recoloured texel is a 24-bit colour again, no channel brighter than before. */
  lemma RecolourDarkens(c: int, dye: int, skin: int)
    requires 0 <= c <= 0xffffff
    ensures var rc := RecolourTexel(c, dye, skin);
            && 0 <= rc <= 0xffffff
            && Red(rc) <= Red(c) && Green(rc) <= Green(c) && Blue(rc) <= Blue(c)
  {
    var tint := if Grey(c) then (if dye == 0 then 0xffffff else dye) else if skin == 0 then 0xffffff else skin;
    if Grey(c) || SkinTone(c) {
      var r, g, b := Scaled(Red(c), Red(tint)), Scaled(Green(c), Green(tint)), Scaled(Blue(c), Blue(tint));
      ScaledDarkens(Red(c), Red(tint));
      ScaledDarkens(Green(c), Green(tint));
      ScaledDarkens(Blue(c), Blue(tint));
      hide Red, Green, Blue, Rgb, Scaled;
      RgbChannels(r, g, b);
    }
  }

  lemma ScaledDarkens(x: int, y: int)
    requires 0 <= x < 256 && 0 <= y < 256
    ensures Scaled(x, y) <= x && (x > 0 ==> Scaled(x, y) < x)
  {
    ProductBound(x, y);
    assert x * y <= x * 255;
  }

  /** "No recolour" (a dye and a skin of 0) leaves a texel as it is if and only if it is black (a pixel the
      sprite does not provide) or neither grey nor skin-toned; the others come out darker. */
  lemma NoRecolourIff(c: int)
    requires 0 <= c <= 0xffffff
    ensures RecolourTexel(c, 0, 0) == c <==> c == 0 || (!Grey(c) && !SkinTone(c))
  {
    var w := 0xffffff;
    assert Red(w) == Green(w) == Blue(w) == 255;
    if c == 0 {
      assert Red(c) == Green(c) == Blue(c) == 0;
      assert Scaled(0, 255) == 0;
    } else if Grey(c) || SkinTone(c) {
      Channels(c);
      assert Red(c) > 0;
      ScaledDarkens(Red(c), 255);
      var r, g, b := Scaled(Red(c), Red(w)), Scaled(Green(c), Green(w)), Scaled(Blue(c), Blue(w));
      RgbChannels(r, g, b);
    }
  }

  lemma TintedChannels(c: int, tint: int)
    ensures var r := Tinted(c, tint);
            && Red(r) == Red(c) * Red(tint) / 256 && Green(r) == Green(c) * Green(tint) / 256
            && Blue(r) == Blue(c) * Blue(tint) / 256
  {
    var r, g, b := Scaled(Red(c), Red(tint)), Scaled(Green(c), Green(tint)), Scaled(Blue(c), Blue(tint));
    hide Red, Green, Blue, Rgb;
    RgbChannels(r, g, b);
  }

  /** A grey texel takes the dye and a skin-toned one the skin colour, channel by channel, whatever the other
      colour is; every other texel stays as it is. */
  lemma RecolourMeans(c: int, dye: int, skin: int)
    ensures var r := RecolourTexel(c, dye, skin);
            && (Red(c) == Green(c) == Blue(c) && dye != 0 ==>
                  && Red(r) == Red(c) * Red(dye) / 256 && Green(r) == Red(c) * Green(dye) / 256
                  && Blue(r) == Red(c) * Blue(dye) / 256)
            && (Red(c) == 255 && Green(c) == Blue(c) != 255 && skin != 0 ==>
                  && Red(r) == 255 * Red(skin) / 256 && Green(r) == Green(c) * Green(skin) / 256
                  && Blue(r) == Green(c) * Blue(skin) / 256)
            && (Green(c) != Blue(c) || (Red(c) != Green(c) && Red(c) != 255) ==> r == c)
  {
    hide Tinted, Red, Green, Blue;
    TintedChannels(c, dye);
    TintedChannels(c, skin);
  }

  // ----- sprites -----

  datatype Sprite = Sprite(
    width: int, height: int, something1: int, something2: int,
    requiresShift: bool, xShift: int, yShift: int, pixels: seq<int>)

  /** A decoded part: colours, or -1 where transparent, placed at (tx, ty) in a figure canvas. */
  datatype Frame = Frame(w: nat, h: nat, fullW: int, fullH: int, tx: int, ty: int, pix: seq<int>)

  ghost predicate FrameOk(f: Frame) {
    && f.w >= 1 && f.h >= 1 && f.fullW >= 1 && f.fullH >= 1 && |f.pix| == f.w * f.h
    && forall i :: 0 <= i < |f.pix| ==> -1 <= f.pix[i] <= 0xffffff
  }

  /** Black is transparent. More pixels than the sprite has room for are a failure; missing ones stay 0. */
  function Decode(sp: Option<Sprite>): (f: Option<Frame>)
    ensures f.Some? ==> FrameOk(f.value)
  {
    if sp.None? || sp.value.width <= 0 || sp.value.height <= 0 || |sp.value.pixels| > sp.value.width * sp.value.height
    then None
    else
      var s := sp.value;
      var pix := seq(s.width * s.height, i requires 0 <= i < s.width * s.height =>
        if i >= |s.pixels| then 0
        else
          var c := s.pixels[i] % 0x1000000;
          if c == 0 then -1 else c);
      Some(Frame(s.width, s.height,
                 if s.something1 <= 0 then s.width else s.something1,
                 if s.something2 <= 0 then s.height else s.something2,
                 if s.requiresShift then s.xShift else 0, if s.requiresShift then s.yShift else 0, pix))
  }

  // ----- colours of a layer -----

  const HAIR_COLOURS: seq<int> := [
    0xffc030, 0xffa040, 0x805030, 0x604020, 0x303030, 0xff6020, 0xff4000, 0xffffff, 65280, 65535]
  const CLOTHING_COLOURS: seq<int> := [
    0xff0000, 0xff8000, 0xffe000, 0xa0e000, 57344, 32768, 41088, 45311, 33023, 12528,
    0xe000e0, 0x303030, 0x604000, 0x805000, 0xffffff]

  function ResolveClothingColour(field: int, table: seq<int>): int {
    if 0 <= field < |table| then table[field] else field
  }

  datatype Colours = Colours(hair: int, top: int, bottom: int, skin: int, raw: bool)

  /** The dye and the skin colour of a layer: markers 1, 2 and 3 select hair, top and bottom; any other
      marker is the dye itself, without skin. */
  function DyeForLayer(marker: int, k: Colours): (int, int) {
    match marker
    case 1 => (if k.raw then k.hair else ResolveClothingColour(k.hair, HAIR_COLOURS), k.skin)
    case 2 => (if k.raw then k.top else ResolveClothingColour(k.top, CLOTHING_COLOURS), k.skin)
    case 3 => (if k.raw then k.bottom else ResolveClothingColour(k.bottom, CLOTHING_COLOURS), k.skin)
    case _ => (marker, 0)
  }

  /** Hair, top and bottom colours each reach the layers of their own marker only, and skin no literal layer. */
  lemma ColoursReach(marker: int, k: Colours, c: int)
    ensures marker != 1 ==> DyeForLayer(marker, k.(hair := c)) == DyeForLayer(marker, k)
    ensures marker != 2 ==> DyeForLayer(marker, k.(top := c)) == DyeForLayer(marker, k)
    ensures marker != 3 ==> DyeForLayer(marker, k.(bottom := c)) == DyeForLayer(marker, k)
    ensures DyeForLayer(marker, k).1 == if 1 <= marker <= 3 then k.skin else 0
    ensures !(1 <= marker <= 3) ==> DyeForLayer(marker, k).0 == marker
  {
  }

  /** Players name their colours by palette index, and colours beyond the palette directly, as all others do. */
  lemma PalettesResolve(k: Colours, i: nat)
    ensures !k.raw && i < 10 ==> DyeForLayer(1, k.(hair := i)).0 == HAIR_COLOURS[i]
    ensures !k.raw && i < 15 ==> DyeForLayer(2, k.(top := i)).0 == CLOTHING_COLOURS[i]
                                 && DyeForLayer(3, k.(bottom := i)).0 == CLOTHING_COLOURS[i]
    ensures k.raw || i >= 15 ==> DyeForLayer(1, k.(hair := i)).0 == DyeForLayer(2, k.(top := i)).0 == i
                                 && DyeForLayer(3, k.(bottom := i)).0 == i
  {
  }

  // ----- the painter's specification -----

  datatype LayerSpec = LayerSpec(animId: int, marker: int, frame: int)

  datatype Part = Part(f: Frame, dye: int, skin: int)

  datatype Pixel = Pixel(solid: bool, colour: int)

  const CLEAR: Pixel := Pixel(false, 0)

  /** The colour a part puts at a canvas position, if it covers it with a texel that is not transparent. */
  function Texel(d: Part, x: int, y: int): Option<int>
    requires FrameOk(d.f)
  {
    var xx, yy := x - d.f.tx, y - d.f.ty;
    if 0 <= xx < d.f.w && 0 <= yy < d.f.h then
      InFrame(d.f.w, d.f.h, xx, yy);
      var c := d.f.pix[xx + yy * d.f.w];
      if c < 0 then None else Some(RecolourTexel(c, d.dye, d.skin) % 0x1000000)
    else None
  }

  lemma InFrame(w: nat, h: nat, x: int, y: int)
    requires 0 <= x < w && 0 <= y < h
    ensures 0 <= x + y * w < w * h
  {
    assert (y + 1) * w <= h * w;
  }

  ghost predicate PartsOk(ds: seq<Part>) {
    forall i :: 0 <= i < |ds| ==> FrameOk(ds[i].f)
  }

  function Over(t: Option<int>, under: Pixel): Pixel {
    if t.Some? then Pixel(true, t.value) else under
  }

  /** What is seen through a stack of parts. */
  function Painted(ds: seq<Part>, x: int, y: int): Pixel
    requires PartsOk(ds)
  {
    if ds == [] then CLEAR else Over(Texel(ds[|ds| - 1], x, y), Painted(ds[..|ds| - 1], x, y))
  }

  /** A position is opaque exactly if some part lands on it, and shows the last one that does. */
  lemma {:induction false} PaintedIsLast(ds: seq<Part>, x: int, y: int)
    requires PartsOk(ds)
    ensures var p := Painted(ds, x, y);
            && (p.solid <==> exists k :: 0 <= k < |ds| && Texel(ds[k], x, y).Some?)
            && (p.solid ==> exists k :: 0 <= k < |ds| && Texel(ds[k], x, y) == Some(p.colour) &&
                                          forall j :: k < j < |ds| ==> Texel(ds[j], x, y).None?)
            && (!p.solid ==> p == CLEAR)
  {
    hide Texel;
    if ds != [] {
      var init := ds[..|ds| - 1];
      PaintedIsLast(init, x, y);
      if Texel(ds[|ds| - 1], x, y).None? && Painted(init, x, y).solid {
        var k :| 0 <= k < |init| && Texel(init[k], x, y) == Some(Painted(init, x, y).colour) &&
                 forall j :: k < j < |init| ==> Texel(init[j], x, y).None?;
        assert Texel(ds[k], x, y) == Some(Painted(init, x, y).colour);
        assert forall j :: k < j < |init| ==> ds[j] == init[j];
      }
    }
  }

  /** The parts that decode, in order, with their colours. */
  function Parts(layers: seq<LayerSpec>, nums: seq<int>, sprites: int -> Option<Sprite>, k: Colours): (ds: seq<Part>)
    ensures PartsOk(ds)
  {
    if layers == [] then []
    else
      var ds, l := Parts(layers[..|layers| - 1], nums, sprites, k), layers[|layers| - 1];
      if l.animId < 0 || l.animId >= |nums| then ds
      else
        var f := Decode(sprites(nums[l.animId] + l.frame));
        if f.None? then ds
        else ds + [Part(f.value, DyeForLayer(l.marker, k).0, DyeForLayer(l.marker, k).1)]
  }

  function MaxWidth(ds: seq<Part>): (m: nat)
    ensures forall i :: 0 <= i < |ds| ==> ds[i].f.fullW <= m
  {
    if ds == [] then 0
    else
      var m := MaxWidth(ds[..|ds| - 1]);
      if ds[|ds| - 1].f.fullW > m then ds[|ds| - 1].f.fullW else m
  }

  function MaxHeight(ds: seq<Part>): (m: nat)
    ensures forall i :: 0 <= i < |ds| ==> ds[i].f.fullH <= m
  {
    if ds == [] then 0
    else
      var m := MaxHeight(ds[..|ds| - 1]);
      if ds[|ds| - 1].f.fullH > m then ds[|ds| - 1].f.fullH else m
  }

  /** The canvas is as wide and as high as the largest part, and no larger. */
  lemma {:induction false} CanvasFits(ds: seq<Part>)
    ensures ds != [] && PartsOk(ds) ==>
              && (exists i :: 0 <= i < |ds| && ds[i].f.fullW == MaxWidth(ds))
              && (exists i :: 0 <= i < |ds| && ds[i].f.fullH == MaxHeight(ds))
  {
    if |ds| > 1 && PartsOk(ds) {
      var init := ds[..|ds| - 1];
      CanvasFits(init);
      var i :| 0 <= i < |init| && init[i].f.fullW == MaxWidth(init);
      var j :| 0 <= j < |init| && init[j].f.fullH == MaxHeight(init);
      assert ds[i] == init[i] && ds[j] == init[j];
    } else if |ds| == 1 && PartsOk(ds) {
      assert MaxWidth(ds[..0]) == 0 && MaxHeight(ds[..0]) == 0;
      assert FrameOk(ds[0].f);
    }
  }

  /** What a sprite contributes to a position, in terms of its own fields: nothing outside its shifted
      rectangle and where it is black, else its texel recoloured, a missing one counting as 0. */
  lemma SpriteShows(s: Sprite, dye: int, skin: int, x: int, y: int)
    requires Decode(Some(s)).Some?
    ensures var xx, yy := if s.requiresShift then x - s.xShift else x, if s.requiresShift then y - s.yShift else y;
            var i := xx + yy * s.width;
            Texel(Part(Decode(Some(s)).value, dye, skin), x, y) ==
            if !(0 <= xx < s.width && 0 <= yy < s.height) then None
            else if 0 <= i < |s.pixels| then
              if s.pixels[i] % 0x1000000 == 0 then None
              else Some(RecolourTexel(s.pixels[i] % 0x1000000, dye, skin) % 0x1000000)
            else Some(RecolourTexel(0, dye, skin) % 0x1000000)
  {
    var xx, yy := if s.requiresShift then x - s.xShift else x, if s.requiresShift then y - s.yShift else y;
    if 0 <= xx < s.width && 0 <= yy < s.height {
      InFrame(s.width, s.height, xx, yy);
    }
    hide RecolourTexel;
  }

  /** A sprite decodes exactly if it is there, has a size, and does not have too many pixels; the figure's size
      is its own where the sprite gives none. */
  lemma DecodesIff(sp: Option<Sprite>)
    ensures Decode(sp).Some? <==>
            sp.Some? && sp.value.width > 0 && sp.value.height > 0
            && |sp.value.pixels| <= sp.value.width * sp.value.height
    ensures Decode(sp).Some? && sp.value.something1 > 0 ==> Decode(sp).value.fullW == sp.value.something1
    ensures Decode(sp).Some? && sp.value.something1 <= 0 ==> Decode(sp).value.fullW == sp.value.width
    ensures Decode(sp).Some? && sp.value.something2 > 0 ==> Decode(sp).value.fullH == sp.value.something2
    ensures Decode(sp).Some? && sp.value.something2 <= 0 ==> Decode(sp).value.fullH == sp.value.height
  {
  }

  // ----- the canvas -----

  function Index(w: nat, h: nat, x: int, y: int): (i: nat)
    requires 0 <= x < w && 0 <= y < h
    ensures i < w * h
  {
    InFrame(w, h, x, y);
    y * w + x
  }

  lemma EarlierRow(w: nat, x: int, y: int, x': int, y': int)
    requires 0 <= x < w && 0 <= x' < w && 0 <= y < y'
    ensures y * w + x < y' * w + x'
  {
    assert (y + 1) * w <= y' * w;
  }

  lemma IndexInjective(w: nat, h: nat, x: int, y: int, x': int, y': int)
    requires 0 <= x < w && 0 <= y < h && 0 <= x' < w && 0 <= y' < h
    requires Index(w, h, x, y) == Index(w, h, x', y')
    ensures x == x' && y == y'
  {
    if y < y' {
      EarlierRow(w, x, y, x', y');
    } else if y' < y {
      EarlierRow(w, x', y', x, y);
    }
  }

  class CompositeSprite {
    const w: nat
    const h: nat
    const pix: array<int>
    const opaqueAt: array<bool>
    const flip: bool

    predicate Valid() {
      pix.Length == w * h && opaqueAt.Length == w * h
    }

    function At(x: int, y: int): Pixel
      requires Valid() && 0 <= x < w && 0 <= y < h
      reads pix, opaqueAt
    {
      Pixel(opaqueAt[Index(w, h, x, y)], pix[Index(w, h, x, y)])
    }

    constructor (w: nat, h: nat, flip: bool)
      ensures Valid() && this.w == w && this.h == h && this.flip == flip && fresh(pix) && fresh(opaqueAt)
      ensures forall x, y :: 0 <= x < w && 0 <= y < h ==> At(x, y) == CLEAR
    {
      this.w, this.h, this.flip := w, h, flip;
      pix := new int[w * h](i => 0);
      opaqueAt := new bool[w * h](i => false);
    }

    method Plot(x: int, y: int, c: int)
      requires Valid() && 0 <= x < w && 0 <= y < h
      modifies pix, opaqueAt
      ensures forall x', y' :: 0 <= x' < w && 0 <= y' < h ==>
        At(x', y') == if x' == x && y' == y then Pixel(true, c) else old(At(x', y'))
    {
      var idx := Index(w, h, x, y);
      pix[idx] := c;
      opaqueAt[idx] := true;
      forall x', y' | 0 <= x' < w && 0 <= y' < h && Index(w, h, x', y') == idx ensures x' == x && y' == y {
        IndexInjective(w, h, x, y, x', y');
      }
    }

    /** Draws the visible texels of row `yy` that fall on the canvas. */
    method DrawRow(d: Part, yy: nat)
      requires Valid() && FrameOk(d.f) && yy < d.f.h && 0 <= d.f.ty + yy < h
      modifies pix, opaqueAt
      ensures forall x, y :: 0 <= x < w && 0 <= y < h ==>
        At(x, y) == if y == d.f.ty + yy then Over(Texel(d, x, y), old(At(x, y))) else old(At(x, y))
    {
      hide Index, RecolourTexel;
      var dy, xx := d.f.ty + yy, 0;
      while xx < d.f.w
        invariant 0 <= xx <= d.f.w
        invariant forall x, y :: 0 <= x < w && 0 <= y < h ==>
          At(x, y) == if y == dy && x - d.f.tx < xx then Over(Texel(d, x, y), old(At(x, y))) else old(At(x, y))
      {
        InFrame(d.f.w, d.f.h, xx, yy);
        var c := d.f.pix[xx + yy * d.f.w];
        var dx := d.f.tx + xx;
        assert 0 <= dx < w ==>
          Texel(d, dx, dy) == if c < 0 then None else Some(RecolourTexel(c, d.dye, d.skin) % 0x1000000);
        if c >= 0 && 0 <= dx < w {
          Plot(dx, dy, RecolourTexel(c, d.dye, d.skin) % 0x1000000);
        }
        xx := xx + 1;
      }
    }

    /** Draws a part over what is there. */
    method DrawPart(d: Part)
      requires Valid() && FrameOk(d.f)
      modifies pix, opaqueAt
      ensures forall x, y :: 0 <= x < w && 0 <= y < h ==> At(x, y) == Over(Texel(d, x, y), old(At(x, y)))
    {
      hide Index, RecolourTexel;
      var yy := 0;
      while yy < d.f.h
        invariant 0 <= yy <= d.f.h
        invariant forall x, y :: 0 <= x < w && 0 <= y < h ==>
          At(x, y) == if y - d.f.ty < yy then Over(Texel(d, x, y), old(At(x, y))) else old(At(x, y))
      {
        if 0 <= d.f.ty + yy < h {
          DrawRow(d, yy);
        }
        yy := yy + 1;
      }
    }
  }

  /** Decodes, recolours and stacks the layers; nothing if none decodes. */
  method Composite(layers: seq<LayerSpec>, nums: seq<int>, sprites: int -> Option<Sprite>, k: Colours, flip: bool)
    returns (cs: CompositeSprite?)
    ensures var ds := Parts(layers, nums, sprites, k);
            && (cs == null <==> ds == [])
            && (cs != null ==> cs.Valid() && fresh(cs) && fresh(cs.pix) && fresh(cs.opaqueAt) && cs.flip == flip
                               && cs.w == MaxWidth(ds) && cs.h == MaxHeight(ds)
                               && forall x, y :: 0 <= x < cs.w && 0 <= y < cs.h ==> cs.At(x, y) == Painted(ds, x, y))
  {
    var ds, fullW, fullH := DecodeLayers(layers, nums, sprites, k);
    assert |ds| > 0 ==> ds[0].f.fullW >= 1 && ds[0].f.fullH >= 1;
    if fullW <= 0 || fullH <= 0 || |ds| == 0 {
      return null;
    }
    cs := new CompositeSprite(fullW, fullH, flip);
    hide Index, Texel;
    var i := 0;
    while i < |ds|
      invariant 0 <= i <= |ds|
      invariant forall x, y :: 0 <= x < cs.w && 0 <= y < cs.h ==> cs.At(x, y) == Painted(ds[..i], x, y)
    {
      assert ds[..i + 1][..i] == ds[..i];
      cs.DrawPart(ds[i]);
      i := i + 1;
    }
    assert ds[..i] == ds;
  }

  method DecodeLayers(layers: seq<LayerSpec>, nums: seq<int>, sprites: int -> Option<Sprite>, k: Colours)
    returns (ds: seq<Part>, fullW: nat, fullH: nat)
    ensures ds == Parts(layers, nums, sprites, k) && fullW == MaxWidth(ds) && fullH == MaxHeight(ds)
  {
    hide Decode, DyeForLayer;
    ds, fullW, fullH := [], 0, 0;
    var i := 0;
    while i < |layers|
      invariant 0 <= i <= |layers|
      invariant ds == Parts(layers[..i], nums, sprites, k) && fullW == MaxWidth(ds) && fullH == MaxHeight(ds)
    {
      var l := layers[i];
      assert layers[..i + 1][..i] == layers[..i];
      i := i + 1;
      if 0 <= l.animId < |nums| {
        var f := Decode(sprites(nums[l.animId] + l.frame));
        if f.Some? {
          if f.value.fullW > fullW {
            fullW := f.value.fullW;
          }
          if f.value.fullH > fullH {
            fullH := f.value.fullH;
          }
          var (dye, skin) := DyeForLayer(l.marker, k);
          ghost var init := ds;
          ds := ds + [Part(f.value, dye, skin)];
          assert ds[..|ds| - 1] == init;
        }
      }
    }
    assert layers[..i] == layers;
  }
}
