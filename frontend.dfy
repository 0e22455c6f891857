/** The frontend adapter (`CytrusLibretroFrontend` and its C entry points):
    port 0's buttons as a fixed 12-bit mask, the pointer as a touch
    report, RGB888 frames converted for the host, and audio forwarded in
    frames. */
module Frontend {
  import opened Common
  import Video
  import Input

  // ---------------------------------------------------------------------
  // Buttons

  /** One `if` of `GetButtonState`: a RetroPad button and the bit it sets. */
  datatype ButtonBit = ButtonBit(retroId: nat, bit: nat)

  /** The twelve tests of `GetButtonState`, in order; entry k sets bit k. */
  const BUTTON_BITS: seq<ButtonBit> := [
    ButtonBit(Input.JOYPAD_B, 0),
    ButtonBit(Input.JOYPAD_A, 1),
    ButtonBit(Input.JOYPAD_Y, 2),
    ButtonBit(Input.JOYPAD_X, 3),
    ButtonBit(Input.JOYPAD_SELECT, 4),
    ButtonBit(Input.JOYPAD_START, 5),
    ButtonBit(Input.JOYPAD_L, 6),
    ButtonBit(Input.JOYPAD_R, 7),
    ButtonBit(Input.JOYPAD_UP, 8),
    ButtonBit(Input.JOYPAD_DOWN, 9),
    ButtonBit(Input.JOYPAD_LEFT, 10),
    ButtonBit(Input.JOYPAD_RIGHT, 11)
  ]

  function Flag(k: nat): bv32
    requires k < 32
  {
    1 << k
  }

  predicate Narrow(table: seq<ButtonBit>)
  {
    forall i | 0 <= i < |table| :: table[i].bit < 12
  }

  /** The mask built by the tests of `table` against port 0. */
  function Buttons(table: seq<ButtonBit>, state: Input.InputState): (mask: bv32)
    requires Narrow(table)
    ensures mask < 0x1000
  {
    if table == [] then 0
    else
      var e := table[|table| - 1];
      var rest := Buttons(table[..|table| - 1], state);
      FlagBelow(rest, e.bit);
      if Input.Pressed(state, 0, e.retroId) then rest | Flag(e.bit) else rest
  }

  lemma FlagBelow(a: bv32, k: nat)
    requires a < 0x1000 && k < 12
    ensures a | Flag(k) < 0x1000
  {
  }

  lemma OrFlag(a: bv32, j: nat, k: nat)
    requires j < 32 && k < 32
    ensures (a | Flag(j)) & Flag(k) != 0 <==> a & Flag(k) != 0 || j == k
  {
  }

  /** Bit k of the mask is set exactly when some test for bit k reads its
      button pressed. */
  lemma {:induction false} ButtonsBit(table: seq<ButtonBit>, state: Input.InputState, k: nat)
    requires Narrow(table) && k < 32
    ensures Buttons(table, state) & Flag(k) != 0 <==>
      exists i | 0 <= i < |table| :: table[i].bit == k && Input.Pressed(state, 0, table[i].retroId)
  {
    if table != [] {
      var n := |table| - 1;
      var front := table[..n];
      ButtonsBit(front, state, k);
      if Input.Pressed(state, 0, table[n].retroId) {
        OrFlag(Buttons(front, state), table[n].bit, k);
      }
      forall i | 0 <= i < n
        ensures front[i] == table[i]
      {
      }
      if exists i | 0 <= i < |table| :: table[i].bit == k && Input.Pressed(state, 0, table[i].retroId) {
        var i :| 0 <= i < |table| && table[i].bit == k && Input.Pressed(state, 0, table[i].retroId);
        if i < n {
          assert front[i].bit == k && Input.Pressed(state, 0, front[i].retroId);
        }
      }
    }
  }

  /** `GetButtonState`: 0 without a state callback, otherwise the mask of
      the twelve tests. */
  function GetButtonState(stateAttached: bool, state: Input.InputState): (mask: bv32)
    ensures !stateAttached ==> mask == 0
    ensures mask < 0x1000
  {
    if !stateAttached then 0 else Buttons(BUTTON_BITS, state)
  }

  /** Bit k (0x0001 up to 0x0800) is set exactly when the k-th RetroPad
      button of the table is held on port 0, and bits 12..31 never are. */
  lemma ButtonStateBits(stateAttached: bool, state: Input.InputState, k: nat)
    requires k < 32
    ensures GetButtonState(stateAttached, state) & Flag(k) != 0 <==>
      stateAttached && k < |BUTTON_BITS| && Input.Pressed(state, 0, BUTTON_BITS[k].retroId)
    ensures GetButtonState(stateAttached, state) < 0x1000
  {
    if stateAttached {
      ButtonsBit(BUTTON_BITS, state, k);
      assert forall i | 0 <= i < |BUTTON_BITS| :: BUTTON_BITS[i].bit == i;
    }
  }

  // ---------------------------------------------------------------------
  // Touch

  datatype TouchReport = TouchReport(pressed: bool, x: real, y: real)

  /** `GetTouchState`. */
  function GetTouchState(stateAttached: bool, state: Input.InputState): (t: TouchReport)
    ensures t.pressed ==> stateAttached
    ensures !t.pressed ==> t.x == 0.0 && t.y == 0.0
  {
    if stateAttached && state(0, Input.DEVICE_POINTER, 0, Input.POINTER_PRESSED) != 0 then
      TouchReport(true,
        Input.PointerToScreen(state(0, Input.DEVICE_POINTER, 0, Input.POINTER_X), 320),
        Input.PointerToScreen(state(0, Input.DEVICE_POINTER, 0, Input.POINTER_Y), 240))
    else TouchReport(false, 0.0, 0.0)
  }

  /** The report is all zero unless the pointer is held; a held pointer
      not at -32768 on either axis lands on the 320x240 screen. */
  lemma TouchReportRange(stateAttached: bool, state: Input.InputState)
    ensures var t := GetTouchState(stateAttached, state);
      && (!t.pressed ==> t == TouchReport(false, 0.0, 0.0))
      && (t.pressed <==> stateAttached && state(0, Input.DEVICE_POINTER, 0, Input.POINTER_PRESSED) != 0)
      && (t.pressed ==>
            && (0.0 <= t.x <= 320.0 <==> state(0, Input.DEVICE_POINTER, 0, Input.POINTER_X) != -32768)
            && (0.0 <= t.y <= 240.0 <==> state(0, Input.DEVICE_POINTER, 0, Input.POINTER_Y) != -32768))
  {
    Input.PointerRange(state(0, Input.DEVICE_POINTER, 0, Input.POINTER_X), 320);
    Input.PointerRange(state(0, Input.DEVICE_POINTER, 0, Input.POINTER_Y), 240);
  }

  /** The frontend and the input aggregator place a held pointer at the
      same touch position. */
  lemma TouchAgreesWithAggregator(before: Input.Touch, state: Input.InputState)
    requires state(0, Input.DEVICE_POINTER, 0, Input.POINTER_PRESSED) != 0
    ensures var t := GetTouchState(true, state);
      Input.TouchAfter(before, state) == Input.Touch(t.pressed, t.x, t.y)
  {
  }

  /** `cytrus_get_touch_state`: each non-null out-parameter receives its
      part of the report. */
  method GetTouchInto(stateAttached: bool, state: Input.InputState, pressed: Cell?<bool>, x: Cell?<real>, y: Cell?<real>)
    modifies pressed, x, y
    ensures var t := GetTouchState(stateAttached, state);
      && (pressed != null ==> pressed.value == t.pressed)
      && (x != null && x != y ==> x.value == t.x)
      && (y != null ==> y.value == t.y)
  {
    var t := GetTouchState(stateAttached, state);
    if pressed != null { pressed.value := t.pressed; }
    if x != null { x.value := t.x; }
    if y != null { y.value := t.y; }
  }

  // ---------------------------------------------------------------------
  // Audio

  /** `OutputAudioSamples`: with a batch callback and a non-null buffer of
      `count` samples, the host gets `count / 2` stereo frames, the
      interleaved samples before any odd last one. */
  function OutputAudio(batchAttached: bool, samples: Option<seq<int16>>, count: nat): (sent: Option<seq<int16>>)
    requires samples.Some? ==> count <= |samples.value|
    ensures sent.Some? ==> samples.Some? && sent.value <= samples.value
    ensures sent.Some? ==> |sent.value| % 2 == 0 && count - 1 <= |sent.value| <= count
  {
    if batchAttached && samples.Some? then Some(samples.value[..2 * (count / 2)]) else None
  }

  lemma OutputAudioFrames(batchAttached: bool, samples: Option<seq<int16>>, count: nat)
    requires samples.Some? ==> count <= |samples.value|
    ensures var sent := OutputAudio(batchAttached, samples, count);
      && (sent.Some? <==> batchAttached && samples.Some?)
      && (sent.Some? ==>
            && |sent.value| / 2 == count / 2 && |sent.value| % 2 == 0
            && |sent.value| + count % 2 == count
            && sent.value <= samples.value)
  {
  }

  // ---------------------------------------------------------------------
  // Frames

  /** The source frame covers every pixel read: row y starts at pixel
      `y * pitch` of a tightly packed RGB888 image. */
  predicate SourceFits(length: nat, width: nat, height: nat, pitch: nat)
  {
    width == 0 || height == 0 || ((height - 1) * pitch + width) * 3 <= length
  }

  lemma SourceIndex(length: nat, width: nat, height: nat, pitch: nat, x: nat, y: nat)
    requires SourceFits(length, width, height, pitch) && x < width && y < height
    ensures (y * pitch + x) * 3 + 2 < length
  {
    assert y * pitch <= (height - 1) * pitch;
  }

  lemma MulAtLeast(a: int, w: int)
    requires a >= 1 && w > 0
    ensures a * w >= w
  {
  }

  lemma SmallMultiple(a: int, w: int)
    requires w > 0 && -w < a * w < w
    ensures a == 0
  {
    if a >= 1 {
      MulAtLeast(a, w);
    } else if a <= -1 {
      MulAtLeast(-a, w);
    }
  }

  lemma DivUnique(n: int, w: int, q: int, r: int)
    requires 0 < w && n == q * w + r && 0 <= r < w
    ensures n / w == q && n % w == r
  {
    var q', r' := n / w, n % w;
    assert (q - q') * w == r' - r;
    SmallMultiple(q - q', w);
  }

  lemma RowMajor(width: nat, height: nat, x: nat, y: nat)
    requires x < width && y < height
    ensures y * width + x < width * height
    ensures (y * width + x) / width == y && (y * width + x) % width == x
  {
    MulAtLeast(height - y, width);
    assert (height - y) * width == height * width - y * width;
    DivUnique(y * width + x, width, y, x);
  }

  lemma RowMajorInverse(width: nat, height: nat, i: nat)
    requires i < width * height
    ensures 0 < width && i / width < height
  {
  }

  /** Pixel `i` (row-major, `width` per row) of the converted frame. */
  function PixelAt(src: seq<byte>, width: nat, height: nat, pitch: nat, i: nat): uint32
    requires SourceFits(|src|, width, height, pitch) && i < width * height
  {
    RowMajorInverse(width, height, i);
    var x, y := i % width, i / width;
    SourceIndex(|src|, width, height, pitch, x, y);
    var j := (y * pitch + x) * 3;
    Video.Pack(src[j], src[j + 1], src[j + 2])
  }

  /** The ARGB8888 frame `PresentFrame` builds from an RGB888 frame. */
  function Converted(src: seq<byte>, width: nat, height: nat, pitch: nat): (frame: seq<uint32>)
    requires SourceFits(|src|, width, height, pitch)
    ensures |frame| == width * height
  {
    seq(width * height, i requires 0 <= i < width * height => PixelAt(src, width, height, pitch, i))
  }

  /** Pixel (x, y) of the converted frame, at `y * width + x`, is the
      opaque pixel of source bytes `(y * pitch + x) * 3` onwards: the
      source stride is counted in pixels. */
  lemma ConvertedPixel(src: seq<byte>, width: nat, height: nat, pitch: nat, x: nat, y: nat)
    requires SourceFits(|src|, width, height, pitch) && x < width && y < height
    ensures y * width + x < width * height
    ensures (y * pitch + x) * 3 + 2 < |src|
    ensures var j := (y * pitch + x) * 3;
      Converted(src, width, height, pitch)[y * width + x] == Video.Pack(src[j], src[j + 1], src[j + 2])
  {
    RowMajor(width, height, x, y);
    SourceIndex(|src|, width, height, pitch, x, y);
  }

  /** One call of the host's video callback: the pixels, the geometry and
      the byte pitch. */
  datatype Frame = Frame(pixels: seq<uint32>, width: nat, height: nat, pitch: nat)

  /** `PresentFrame`'s static conversion buffer (`rgba_buffer`, of
      `rgba_buffer_size` bytes); `videoAttached` says whether `video_cb` is
      set and `frames` records its calls. */
  class Presenter {
    var rgba: array<uint32>
    var rgbaSize: nat
    var videoAttached: bool
    var frames: seq<Frame>

    ghost predicate Valid()
      reads this
    {
      rgba.Length * 4 == rgbaSize
    }

    constructor (videoAttached: bool)
      ensures Valid() && rgbaSize == 0 && frames == []
      ensures this.videoAttached == videoAttached
    {
      rgba := new uint32[0];
      rgbaSize := 0;
      this.videoAttached := videoAttached;
      frames := [];
    }

    /** `PresentFrame`: without a callback or data nothing happens;
        otherwise the buffer grows to the frame's byte size if it is
        smaller, receives the converted frame, and goes to the host with a
        pitch of `4 * width` bytes. */
    method PresentFrame(data: Option<seq<byte>>, width: nat, height: nat, pitch: nat)
      requires Valid()
      requires width * height * 4 < 0x1_0000_0000
      requires data.Some? ==> SourceFits(|data.value|, width, height, pitch)
      modifies this, rgba
      ensures Valid() && rgbaSize >= old(rgbaSize)
      ensures videoAttached == old(videoAttached)
      ensures rgbaSize == old(rgbaSize) ==> rgba == old(rgba)
      ensures rgbaSize != old(rgbaSize) ==> fresh(rgba)
      ensures !(old(videoAttached) && data.Some?) ==> unchanged(this) && unchanged(rgba)
      ensures old(videoAttached) && data.Some? ==>
        && rgbaSize == (if old(rgbaSize) < width * height * 4 then width * height * 4 else old(rgbaSize))
        && rgba[..width * height] == Converted(data.value, width, height, pitch)
        && frames == old(frames) + [Frame(Converted(data.value, width, height, pitch), width, height, width * 4)]
    {
      if !videoAttached || data.None? {
        return;
      }
      var src := data.value;
      var needed := width * height * 4;
      if rgbaSize < needed {
        rgba := new uint32[width * height];
        rgbaSize := needed;
      }
      Convert(src, width, height, pitch);
      frames := frames + [Frame(rgba[..width * height], width, height, width * 4)];
    }

    /** The first `n` pixels of the buffer hold the converted frame. */
    ghost predicate Filled(src: seq<byte>, width: nat, height: nat, pitch: nat, n: nat)
      reads this, rgba
      requires SourceFits(|src|, width, height, pitch) && n <= width * height <= rgba.Length
    {
      forall i | 0 <= i < n :: rgba[i] == PixelAt(src, width, height, pitch, i)
    }

    /** The nested conversion loops of `PresentFrame`. */
    method Convert(src: seq<byte>, width: nat, height: nat, pitch: nat)
      requires Valid() && width * height <= rgba.Length
      requires SourceFits(|src|, width, height, pitch)
      modifies rgba
      ensures rgba[..width * height] == Converted(src, width, height, pitch)
    {
      for y := 0 to height
        invariant y * width <= width * height
        invariant Filled(src, width, height, pitch, y * width)
      {
        ConvertRow(src, width, height, pitch, y);
      }
      assert forall i | 0 <= i < width * height :: rgba[i] == Converted(src, width, height, pitch)[i];
    }

    /** The inner loop: row `y` of the frame. */
    method ConvertRow(src: seq<byte>, width: nat, height: nat, pitch: nat, y: nat)
      requires Valid() && width * height <= rgba.Length && y < height
      requires SourceFits(|src|, width, height, pitch)
      requires y * width <= width * height && Filled(src, width, height, pitch, y * width)
      modifies rgba
      ensures (y + 1) * width <= width * height && Filled(src, width, height, pitch, (y + 1) * width)
    {
      for x := 0 to width
        invariant y * width + x <= width * height
        invariant Filled(src, width, height, pitch, y * width + x)
      {
        RowMajor(width, height, x, y);
        SourceIndex(|src|, width, height, pitch, x, y);
        var j := (y * pitch + x) * 3;
        rgba[y * width + x] := Video.Pack(src[j], src[j + 1], src[j + 2]);
      }
      assert (y + 1) * width == y * width + width;
    }
  }
}
