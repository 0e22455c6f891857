/** The video compositor: the two 3DS screens (RGB888 surfaces) are placed
    on one ARGB8888 canvas whose size depends on the layout and the
    resolution scale. */
module Video {
  import opened Common

  const TOP_SCREEN_WIDTH: nat := 400
  const TOP_SCREEN_HEIGHT: nat := 240
  const BOTTOM_SCREEN_WIDTH: nat := 320
  const BOTTOM_SCREEN_HEIGHT: nat := 240
  /** Bytes per canvas pixel (`sizeof(uint32_t)`). */
  const BYTES_PER_PIXEL: nat := 4
  /** The largest resolution scale the core offers. */
  const MAX_SCALE: nat := 8

  datatype Layout = TopBottom | SideBySide | TopOnly | BottomOnly

  datatype Size = Size(width: nat, height: nat)

  datatype Screen = Top | Bottom

  /** Where a screen's top-left pixel lands on the canvas. */
  datatype Placement = Placement(screen: Screen, x: nat, y: nat)

  function ScreenSize(s: Screen): Size
  {
    match s
    case Top => Size(TOP_SCREEN_WIDTH, TOP_SCREEN_HEIGHT)
    case Bottom => Size(BOTTOM_SCREEN_WIDTH, BOTTOM_SCREEN_HEIGHT)
  }

  /** The canvas size `cytrus_video_init` derives from the layout and scale. */
  function Dimensions(layout: Layout, scale: nat): (canvas: Size)
    ensures canvas.width == 0 <==> scale == 0
    ensures canvas.height == 0 <==> scale == 0
    ensures canvas.width <= (TOP_SCREEN_WIDTH + BOTTOM_SCREEN_WIDTH) * scale
    ensures canvas.height <= (TOP_SCREEN_HEIGHT + BOTTOM_SCREEN_HEIGHT) * scale
  {
    match layout
    case TopBottom => Size(TOP_SCREEN_WIDTH * scale, (TOP_SCREEN_HEIGHT + BOTTOM_SCREEN_HEIGHT) * scale)
    case SideBySide => Size((TOP_SCREEN_WIDTH + BOTTOM_SCREEN_WIDTH) * scale, TOP_SCREEN_HEIGHT * scale)
    case TopOnly => Size(TOP_SCREEN_WIDTH * scale, TOP_SCREEN_HEIGHT * scale)
    case BottomOnly => Size(BOTTOM_SCREEN_WIDTH * scale, BOTTOM_SCREEN_HEIGHT * scale)
  }

  /** The screens `cytrus_video_render_frame` draws, in drawing order. The
      screens themselves are not enlarged by the scale. */
  function Placements(layout: Layout, scale: nat): (ps: seq<Placement>)
    ensures |ps| == if layout == TopBottom || layout == SideBySide then 2 else 1
    ensures ps[0].x == 0 && ps[0].y == 0
    ensures forall i | 0 <= i < |ps| :: (ps[i].screen == Top <==> layout != BottomOnly && i == 0)
  {
    match layout
    case TopBottom =>
      var canvas := Dimensions(layout, scale);
      [ Placement(Top, 0, 0),
        Placement(Bottom, (canvas.width - BOTTOM_SCREEN_WIDTH * scale) / 2, TOP_SCREEN_HEIGHT * scale) ]
    case SideBySide => [Placement(Top, 0, 0), Placement(Bottom, TOP_SCREEN_WIDTH * scale, 0)]
    case TopOnly => [Placement(Top, 0, 0)]
    case BottomOnly => [Placement(Bottom, 0, 0)]
  }

  predicate Covers(p: Placement, row: int, col: int)
  {
    p.y <= row < p.y + ScreenSize(p.screen).height && p.x <= col < p.x + ScreenSize(p.screen).width
  }

  predicate Inside(p: Placement, canvas: Size)
  {
    p.x + ScreenSize(p.screen).width <= canvas.width && p.y + ScreenSize(p.screen).height <= canvas.height
  }

  /** For every layout and every scale the core accepts, each screen lies
      wholly inside the canvas and the two screens do not overlap. */
  lemma PlacementsFit(layout: Layout, scale: nat)
    requires 1 <= scale
    ensures forall i | 0 <= i < |Placements(layout, scale)| ::
      Inside(Placements(layout, scale)[i], Dimensions(layout, scale))
    ensures forall i, j, row, col | 0 <= i < j < |Placements(layout, scale)| ::
      !(Covers(Placements(layout, scale)[i], row, col) && Covers(Placements(layout, scale)[j], row, col))
  {
  }

  /** The geometry of the stacked layout: the bottom screen's 320·s-wide
      slot starts below the top screen and is centred in the canvas. Since
      surfaces are not enlarged, the screen itself is centred under the top
      one only at scale 1. */
  lemma TopBottomCentred(scale: nat)
    requires 1 <= scale
    ensures var ps := Placements(TopBottom, scale);
      var canvas := Dimensions(TopBottom, scale);
      && ps[1].x == 40 * scale
      && ps[1].x + ps[1].x + BOTTOM_SCREEN_WIDTH * scale == canvas.width
      && ps[1].y == TOP_SCREEN_HEIGHT * scale
  {
  }

  /** Scale 0, which `cytrus_video_init` as written accepts, gives an empty
      canvas that no screen fits in: rendering then writes outside the
      buffer. */
  lemma ScaleZeroOverflows(layout: Layout)
    ensures Dimensions(layout, 0) == Size(0, 0)
    ensures !Inside(Placements(layout, 0)[0], Dimensions(layout, 0))
  {
  }

  /** `(0xFF << 24) | (r << 16) | (g << 8) | b`: an opaque ARGB8888 word
      whose colour channels are the source bytes. */
  function Pack(r: byte, g: byte, b: byte): (p: uint32)
    ensures p / 0x100_0000 == 0xFF
    ensures (p / 0x1_0000) % 0x100 == r
    ensures (p / 0x100) % 0x100 == g
    ensures p % 0x100 == b
  {
    0xFF00_0000 + r * 0x1_0000 + g * 0x100 + b
  }

  /** Different colours give different pixels. */
  lemma PackInjective(r: byte, g: byte, b: byte, r': byte, g': byte, b': byte)
    requires Pack(r, g, b) == Pack(r', g', b')
    ensures r == r' && g == g' && b == b'
  {
  }

  lemma SurfaceIndex(w: nat, h: nat, x: nat, y: nat)
    requires x < w && y < h
    ensures (y * w + x) * 3 + 2 < w * h * 3
  {
    assert y * w + x < (y + 1) * w;
    assert (y + 1) * w <= h * w;
  }

  /** Pixel (x, y) of a tightly packed RGB888 surface `w` pixels wide. */
  function SurfacePixel(src: seq<byte>, w: nat, h: nat, x: nat, y: nat): uint32
    requires |src| == w * h * 3 && x < w && y < h
  {
    SurfaceIndex(w, h, x, y);
    var i := (y * w + x) * 3;
    Pack(src[i], src[i + 1], src[i + 2])
  }

  /** The surface a placement draws. */
  function Source(p: Placement, top: seq<byte>, bottom: seq<byte>): seq<byte>
  {
    match p.screen
    case Top => top
    case Bottom => bottom
  }

  predicate Surfaces(top: seq<byte>, bottom: seq<byte>)
  {
    |top| == TOP_SCREEN_WIDTH * TOP_SCREEN_HEIGHT * 3 && |bottom| == BOTTOM_SCREEN_WIDTH * BOTTOM_SCREEN_HEIGHT * 3
  }

  /** Pixel (row, col) of the canvas after drawing the placements `ps` in
      order on a cleared canvas: the last screen that covers it, else 0. */
  function Composed(ps: seq<Placement>, top: seq<byte>, bottom: seq<byte>, row: nat, col: nat): uint32
    requires Surfaces(top, bottom)
  {
    if ps == [] then 0
    else
      var p := ps[|ps| - 1];
      if Covers(p, row, col) then
        var size := ScreenSize(p.screen);
        SurfacePixel(Source(p, top, bottom), size.width, size.height, col - p.x, row - p.y)
      else Composed(ps[..|ps| - 1], top, bottom, row, col)
  }

  /** With the all-zero placeholder screens that `render_frame` draws, the
      screens show as opaque black and the rest of the canvas stays 0. */
  lemma {:induction false} PlaceholderFrame(ps: seq<Placement>, top: seq<byte>, bottom: seq<byte>, row: nat, col: nat)
    requires Surfaces(top, bottom)
    requires forall i | 0 <= i < |top| :: top[i] == 0
    requires forall i | 0 <= i < |bottom| :: bottom[i] == 0
    ensures Composed(ps, top, bottom, row, col)
      == if exists i | 0 <= i < |ps| :: Covers(ps[i], row, col) then 0xFF00_0000 else 0
  {
    if ps != [] {
      var p := ps[|ps| - 1];
      PlaceholderFrame(ps[..|ps| - 1], top, bottom, row, col);
      if Covers(p, row, col) {
        var size := ScreenSize(p.screen);
        SurfaceIndex(size.width, size.height, col - p.x, row - p.y);
      } else {
        assert forall i | 0 <= i < |ps| - 1 :: ps[..|ps| - 1][i] == ps[i];
      }
    }
  }

  /** One call of the host's video callback: the canvas and its geometry. */
  datatype Frame = Frame(width: nat, height: nat, pitch: nat)

  /** The compositor's static state: `video_buffer` (null until
      initialised), `video_width`, `video_height`, `video_pitch`,
      `current_layout`, `resolution_scale`; `hostAttached` says whether
      `video_cb` is set and `frames` records its calls. The canvas is held
      as rows of `width` pixels: row r starts at byte `r * pitch`. */
  class Compositor {
    var pixels: array2?<uint32>
    var width: nat
    var height: nat
    var pitch: nat
    var layout: Layout
    var scale: nat
    var hostAttached: bool
    var frames: seq<Frame>

    ghost predicate Valid()
      reads this
    {
      && 1 <= scale <= MAX_SCALE
      && (pixels != null ==>
            && Size(width, height) == Dimensions(layout, scale)
            && pitch == BYTES_PER_PIXEL * width
            && pixels.Length0 == height && pixels.Length1 == width)
    }

    ghost predicate Cleared()
      reads this, pixels
      requires pixels != null
    {
      forall row, col | 0 <= row < pixels.Length0 && 0 <= col < pixels.Length1 :: pixels[row, col] == 0
    }

    /** The static initial state: no buffer, 800x480, stacked layout, scale 1. */
    constructor (hostAttached: bool)
      ensures Valid() && pixels == null
      ensures width == 800 && height == 480 && pitch == 0
      ensures layout == TopBottom && scale == 1
      ensures this.hostAttached == hostAttached && frames == []
    {
      pixels := null;
      width, height, pitch := 800, 480, 0;
      layout := TopBottom;
      scale := 1;
      this.hostAttached := hostAttached;
      frames := [];
    }

    function GetDimensions(): (s: Size)
      reads this
    {
      Size(width, height)
    }

    /** `cytrus_video_get_dimensions`: each non-null out-parameter receives
        its value; when both point to one place, the height is written last. */
    method GetDimensionsInto(w: Cell?<nat>, h: Cell?<nat>)
      modifies w, h
      ensures h != null ==> h.value == height
      ensures w != null && w != h ==> w.value == width
    {
      if w != null {
        w.value := width;
      }
      if h != null {
        h.value := height;
      }
    }

    /** `cytrus_video_get_layout`: the layout the canvas, when allocated,
        was sized for. */
    function GetLayout(): (l: Layout)
      requires Valid()
      reads this
      ensures pixels != null ==> GetDimensions() == Dimensions(l, scale)
    {
      layout
    }

    /** `cytrus_video_init`, corrected to refuse a scale outside 1..8 (as
        written it accepts any scale, see `ScaleZeroOverflows`). On success
        the canvas is reallocated at the size of the current layout and
        cleared to 0. */
    method Init(s: nat) returns (ok: bool)
      requires 1 <= scale <= MAX_SCALE
      modifies this
      ensures ok || old(Valid()) ==> Valid()
      ensures ok <==> 1 <= s <= MAX_SCALE
      ensures !ok ==>
        && pixels == old(pixels) && scale == old(scale)
        && GetDimensions() == old(GetDimensions()) && pitch == old(pitch)
      ensures ok ==>
        && pixels != null && fresh(pixels) && Cleared()
        && scale == s && GetDimensions() == Dimensions(layout, s) && pitch == BYTES_PER_PIXEL * width
      ensures layout == old(layout) && hostAttached == old(hostAttached) && frames == old(frames)
    {
      if s < 1 || s > MAX_SCALE {
        return false;
      }
      scale := s;
      var size := Dimensions(layout, s);
      width, height := size.width, size.height;
      pitch := width * BYTES_PER_PIXEL;
      var canvas := new uint32[height, width];
      forall row, col | 0 <= row < height && 0 <= col < width {
        canvas[row, col] := 0;
      }
      pixels := canvas;
      return true;
    }

    /** `cytrus_video_deinit`: the canvas is released. */
    method Deinit()
      requires Valid()
      modifies this
      ensures Valid() && pixels == null
      ensures width == old(width) && height == old(height) && pitch == old(pitch)
      ensures layout == old(layout) && scale == old(scale)
      ensures hostAttached == old(hostAttached) && frames == old(frames)
    {
      pixels := null;
    }

    /** `cytrus_video_set_layout`: the layout changes and the canvas is
        rebuilt for it at the current scale. */
    method SetLayout(l: Layout)
      requires Valid()
      modifies this
      ensures Valid() && GetLayout() == l && scale == old(scale)
      ensures GetDimensions() == Dimensions(l, old(scale))
      ensures pixels != null && fresh(pixels) && Cleared()
      ensures hostAttached == old(hostAttached) && frames == old(frames)
    {
      layout := l;
      var ok := Init(scale);
    }

    /** `cytrus_video_set_resolution_scale`: a scale outside 1..8 is
        ignored; otherwise the canvas is rebuilt at the new scale. */
    method SetResolutionScale(s: nat)
      requires Valid()
      modifies this
      ensures Valid() && layout == old(layout)
      ensures !(1 <= s <= MAX_SCALE) ==>
        && pixels == old(pixels) && scale == old(scale)
        && GetDimensions() == old(GetDimensions()) && pitch == old(pitch)
      ensures 1 <= s <= MAX_SCALE ==>
        && scale == s && GetDimensions() == Dimensions(layout, s)
        && pixels != null && fresh(pixels) && Cleared()
      ensures hostAttached == old(hostAttached) && frames == old(frames)
    {
      if 1 <= s <= MAX_SCALE {
        scale := s;
        var ok := Init(s);
      }
    }

    /** `convert_framebuffer_to_rgba`: every pixel of the `srcW` x `srcH`
        RGB888 surface is packed into the canvas rectangle at
        (`dstX`, `dstY`); no other canvas pixel changes. */
    method Blit(src: seq<byte>, srcW: nat, srcH: nat, dstX: nat, dstY: nat)
      requires pixels != null && |src| == srcW * srcH * 3
      requires dstX + srcW <= pixels.Length1 && dstY + srcH <= pixels.Length0
      modifies pixels
      ensures forall row, col | 0 <= row < pixels.Length0 && 0 <= col < pixels.Length1 ::
        pixels[row, col] ==
          if dstY <= row < dstY + srcH && dstX <= col < dstX + srcW
          then SurfacePixel(src, srcW, srcH, col - dstX, row - dstY)
          else old(pixels[row, col])
    {
      for y := 0 to srcH
        invariant forall row, col | 0 <= row < pixels.Length0 && 0 <= col < pixels.Length1 ::
          pixels[row, col] ==
            if dstY <= row < dstY + y && dstX <= col < dstX + srcW
            then SurfacePixel(src, srcW, srcH, col - dstX, row - dstY)
            else old(pixels[row, col])
      {
        for x := 0 to srcW
          invariant forall row, col | 0 <= row < pixels.Length0 && 0 <= col < pixels.Length1 ::
            pixels[row, col] ==
              if (dstY <= row < dstY + y && dstX <= col < dstX + srcW) || (row == dstY + y && dstX <= col < dstX + x)
              then SurfacePixel(src, srcW, srcH, col - dstX, row - dstY)
              else old(pixels[row, col])
        {
          pixels[dstY + y, dstX + x] := SurfacePixel(src, srcW, srcH, x, y);
        }
      }
    }

    /** Draws one placement of a screen. */
    method Place(p: Placement, top: seq<byte>, bottom: seq<byte>, ghost done: seq<Placement>)
      requires Valid() && pixels != null && Surfaces(top, bottom)
      requires Inside(p, GetDimensions())
      requires forall row, col | 0 <= row < height && 0 <= col < width ::
        pixels[row, col] == Composed(done, top, bottom, row, col)
      modifies pixels
      ensures forall row, col | 0 <= row < height && 0 <= col < width ::
        pixels[row, col] == Composed(done + [p], top, bottom, row, col)
    {
      var size := ScreenSize(p.screen);
      Blit(Source(p, top, bottom), size.width, size.height, p.x, p.y);
      assert (done + [p])[..|done|] == done;
    }

    /** `cytrus_video_render_frame` for the two screen surfaces: a no-op
        without a canvas or a host callback; otherwise the canvas is
        cleared, the layout's screens are drawn, and the canvas goes to the
        host. */
    method Render(top: seq<byte>, bottom: seq<byte>)
      requires Valid() && Surfaces(top, bottom)
      modifies this`frames, pixels
      ensures Valid()
      ensures old(pixels == null || !hostAttached) ==> unchanged(this) && (pixels != null ==> unchanged(pixels))
      ensures old(pixels != null && hostAttached) ==>
        && frames == old(frames) + [Frame(width, height, pitch)]
        && forall row, col | 0 <= row < height && 0 <= col < width ::
             pixels[row, col] == Composed(Placements(layout, scale), top, bottom, row, col)
    {
      if pixels == null || !hostAttached {
        return;
      }
      Compose(top, bottom);
      frames := frames + [Frame(width, height, pitch)];
    }

    /** `memset` of the whole canvas to 0. */
    method Clear()
      requires pixels != null
      modifies pixels
      ensures Cleared()
    {
      forall row, col | 0 <= row < pixels.Length0 && 0 <= col < pixels.Length1 {
        pixels[row, col] := 0;
      }
    }

    /** The drawing part of `render_frame`: clear, then the layout's screens. */
    method Compose(top: seq<byte>, bottom: seq<byte>)
      requires Valid() && pixels != null && Surfaces(top, bottom)
      modifies pixels
      ensures forall row, col | 0 <= row < height && 0 <= col < width ::
        pixels[row, col] == Composed(Placements(layout, scale), top, bottom, row, col)
    {
      Clear();
      PlacementsFit(layout, scale);
      var ps := Placements(layout, scale);
      match layout {
        case TopBottom =>
          Place(Placement(Top, 0, 0), top, bottom, []);
          var bottomX := (width - BOTTOM_SCREEN_WIDTH * scale) / 2;
          var bottomY := TOP_SCREEN_HEIGHT * scale;
          assert Placement(Bottom, bottomX, bottomY) == ps[1];
          Place(Placement(Bottom, bottomX, bottomY), top, bottom, [ps[0]]);
          assert [ps[0]] + [ps[1]] == ps;
        case SideBySide =>
          Place(Placement(Top, 0, 0), top, bottom, []);
          Place(Placement(Bottom, TOP_SCREEN_WIDTH * scale, 0), top, bottom, [ps[0]]);
          assert [ps[0]] + [ps[1]] == ps;
        case TopOnly =>
          Place(Placement(Top, 0, 0), top, bottom, []);
        case BottomOnly =>
          Place(Placement(Bottom, 0, 0), top, bottom, []);
      }
    }
  }
}
