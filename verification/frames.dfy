/** The frame the player shows: which decoder reads the file, when the
    frame is refused, and the order of the modifications — brightness and
    contrast, grayscale, threshold, edges, flips — before the channels are
    put in the order the display wants. A frame is rows × columns ×
    channels of bytes; a two-dimensional (single-plane) array is `flat`.
    The library numerics enter as parameters: `level` is what
    `convertScaleAbs` does to one byte, `luma` the perceptual weighting of
    a red, green and blue byte, `simple` the library's own grayscale, and
    `edges` the edge detector. */
module Frames {
  import opened Maybe
  import opened PyText
  import opened Modifiers

  type Byte = x: int | 0 <= x < 256

  datatype Frame = Frame(height: nat, width: nat, channels: nat, flat: bool, data: seq<seq<seq<Byte>>>)

  /** The data has the frame's shape, and a flat frame has one channel. */
  predicate Valid(f: Frame)
  {
    |f.data| == f.height &&
    (forall i :: 0 <= i < f.height ==> |f.data[i]| == f.width) &&
    (forall i, j :: 0 <= i < f.height && 0 <= j < f.width ==> |f.data[i][j]| == f.channels) &&
    (f.flat ==> f.channels == 1)
  }

  /** The byte at row `i`, column `j`, channel `c` (0 off the frame). */
  function Px(f: Frame, i: int, j: int, c: int): Byte
  {
    if 0 <= i < |f.data| && 0 <= j < |f.data[i]| && 0 <= c < |f.data[i][j]| then f.data[i][j][c] else 0
  }

  /** The byte-wise steps of the pipeline: each gives the byte at row `i`,
      column `j`, channel `c` of its result from the frame it reads. */
  datatype PixelOp =
    | Level(level: Byte -> Byte)
    | Binarize
    | Mirror
    | Upend
    | SwapRedBlue
    | GrayAlpha(luma: Luma)
    | GrayPlane(luma: Luma)
    | GrayColumn(luma: Luma)

  function Apply(op: PixelOp, f: Frame, i: int, j: int, c: int): Byte
  {
    match op
    case Level(level) => level(Px(f, i, j, c))
    case Binarize => Binary(Px(f, i, j, c))
    case Mirror => Px(f, i, f.width - 1 - j, c)
    case Upend => Px(f, f.height - 1 - i, j, c)
    case SwapRedBlue => if c < 3 then Px(f, i, j, 2 - c) else Px(f, i, j, c)
    case GrayAlpha(luma) => if c < 3 then Weigh(f, luma, i, j) else Px(f, i, j, 3)
    case GrayPlane(luma) => Weigh(f, luma, i, j)
    case GrayColumn(luma) => WeighRow(f, luma, i)
  }

  /** The frame of the given shape whose bytes `op` computes from `f`. */
  function Build(height: nat, width: nat, channels: nat, flat: bool, op: PixelOp, f: Frame): (r: Frame)
    ensures r.height == height && r.width == width && r.channels == channels && r.flat == flat
  {
    Frame(height, width, channels, flat, seq(height, i => seq(width, j => seq(channels, c => Apply(op, f, i, j, c)))))
  }

  lemma BuildReads(height: nat, width: nat, channels: nat, flat: bool, op: PixelOp, f: Frame)
    ensures (flat ==> channels == 1) ==> Valid(Build(height, width, channels, flat, op, f))
    ensures forall i, j, c :: 0 <= i < height && 0 <= j < width && 0 <= c < channels ==>
              Px(Build(height, width, channels, flat, op, f), i, j, c) == Apply(op, f, i, j, c)
  {
  }

  /** Two frames of one shape are equal when their bytes are. */
  lemma SameBytes(f: Frame, g: Frame)
    requires Valid(f) && Valid(g)
    requires f.height == g.height && f.width == g.width && f.channels == g.channels && f.flat == g.flat
    requires forall i, j, c :: 0 <= i < f.height && 0 <= j < f.width && 0 <= c < f.channels ==> Px(f, i, j, c) == Px(g, i, j, c)
    ensures f == g
  {
    forall i | 0 <= i < f.height
      ensures f.data[i] == g.data[i]
    {
      forall j | 0 <= j < f.width
        ensures f.data[i][j] == g.data[i][j]
      {
        assert forall c :: 0 <= c < f.channels ==> f.data[i][j][c] == Px(f, i, j, c) == Px(g, i, j, c) == g.data[i][j][c];
      }
    }
  }

  /** `cvimage is None or cvimage.size == 0`. */
  predicate Empty(f: Frame)
  {
    f.height == 0 || f.width == 0 || f.channels == 0
  }

  /** The channel counts the player accepts. */
  predicate ChannelsOk(f: Frame)
  {
    f.channels == 1 || f.channels == 3 || f.channels == 4
  }

  /** What a decoder can give: a plane, or a colour frame with or without
      alpha. */
  predicate Decodable(f: Frame)
  {
    Valid(f) && (f.flat || f.channels == 3 || f.channels == 4)
  }

  // ---------------------------------------------------------------------
  // Decoding
  // ---------------------------------------------------------------------

  /** Qt's file reader followed by a decode to three colour channels, or
      the raw file bytes decoded with every channel kept. */
  datatype Reader = QtColor | FileUnchanged

  /** What a reader gets from a path: no bytes at all (a missing or empty
      file), bytes the decoder cannot read, or a frame. */
  datatype Read = NoBytes | Undecodable | Decoded(frame: Frame)

  /** What the reader the path and the break flag pick gets. */
  function Chosen(onBreak: bool, path: string, qt: Read, raw: Read): Read
  {
    if ReaderFor(onBreak, path) == QtColor then qt else raw
  }

  /** A break, or a path whose last three characters are `jpg` in any
      case, is read through Qt as colour; anything else is read raw. */
  function ReaderFor(onBreak: bool, path: string): (r: Reader)
    ensures onBreak ==> r == QtColor
  {
    if onBreak then QtColor
    else if Lower(LastChars(path, 3)) == "jpg" then QtColor
    else FileUnchanged
  }

  lemma LastThree(stem: string, ext: string)
    requires |ext| == 3
    ensures LastChars(stem + ext, 3) == ext
  {
    assert (stem + ext)[|stem|..] == ext;
  }

  /** `.jpg` in either case goes through Qt; `.jpeg` and `.png` keep every
      channel, alpha included. */
  lemma ReaderBySuffix(stem: string)
    ensures ReaderFor(false, stem + "jpg") == QtColor && ReaderFor(false, stem + "JPG") == QtColor
    ensures ReaderFor(false, stem + "peg") == FileUnchanged && ReaderFor(false, stem + "png") == FileUnchanged
  {
    LastThree(stem, "jpg");
    LastThree(stem, "JPG");
    LastThree(stem, "peg");
    LastThree(stem, "png");
    LowerAt("jpg");
    LowerAt("JPG");
    LowerAt("peg");
    LowerAt("png");
  }

  // ---------------------------------------------------------------------
  // Byte-wise steps
  // ---------------------------------------------------------------------

  /** Brightness and contrast, byte by byte. */
  function MapBytes(f: Frame, level: Byte -> Byte): (r: Frame)
    ensures r.height == f.height && r.width == f.width && r.channels == f.channels && r.flat == f.flat
    ensures Valid(f) ==> Valid(r)
  {
    BuildReads(f.height, f.width, f.channels, f.flat, Level(level), f);
    Build(f.height, f.width, f.channels, f.flat, Level(level), f)
  }

  const ThresholdLevel: int := 128
  const White: Byte := 255

  function Binary(b: Byte): Byte
  {
    if b > ThresholdLevel then White else 0
  }

  /** The binary threshold at 128 on every byte. */
  function Threshold(f: Frame): (r: Frame)
    ensures r.height == f.height && r.width == f.width && r.channels == f.channels && r.flat == f.flat
    ensures Valid(f) ==> Valid(r)
  {
    BuildReads(f.height, f.width, f.channels, f.flat, Binarize, f);
    Build(f.height, f.width, f.channels, f.flat, Binarize, f)
  }

  /** Every byte of a thresholded frame is white exactly where the source
      byte is above 128, and black elsewhere. */
  lemma ThresholdBinary(f: Frame)
    requires Valid(f)
    ensures Valid(Threshold(f))
    ensures forall i, j, c :: 0 <= i < f.height && 0 <= j < f.width && 0 <= c < f.channels ==>
              (Px(Threshold(f), i, j, c) == White <==> Px(f, i, j, c) > ThresholdLevel) &&
              (Px(Threshold(f), i, j, c) == 0 <==> Px(f, i, j, c) <= ThresholdLevel)
  {
    BuildReads(f.height, f.width, f.channels, f.flat, Binarize, f);
  }

  // ---------------------------------------------------------------------
  // Flips
  // ---------------------------------------------------------------------

  /** Columns reversed. */
  function HFlip(f: Frame): (r: Frame)
    ensures r.height == f.height && r.width == f.width && r.channels == f.channels && r.flat == f.flat
    ensures Valid(f) ==> Valid(r)
  {
    BuildReads(f.height, f.width, f.channels, f.flat, Mirror, f);
    Build(f.height, f.width, f.channels, f.flat, Mirror, f)
  }

  /** Rows reversed. */
  function VFlip(f: Frame): (r: Frame)
    ensures r.height == f.height && r.width == f.width && r.channels == f.channels && r.flat == f.flat
    ensures Valid(f) ==> Valid(r)
  {
    BuildReads(f.height, f.width, f.channels, f.flat, Upend, f);
    Build(f.height, f.width, f.channels, f.flat, Upend, f)
  }

  /** The byte of a flipped frame is the mirrored byte of the frame. */
  lemma FlipsMirror(f: Frame)
    requires Valid(f)
    ensures Valid(HFlip(f)) && Valid(VFlip(f))
    ensures forall i, j, c :: 0 <= i < f.height && 0 <= j < f.width && 0 <= c < f.channels ==>
              Px(HFlip(f), i, j, c) == Px(f, i, f.width - 1 - j, c) &&
              Px(VFlip(f), i, j, c) == Px(f, f.height - 1 - i, j, c)
  {
    BuildReads(f.height, f.width, f.channels, f.flat, Mirror, f);
    BuildReads(f.height, f.width, f.channels, f.flat, Upend, f);
  }

  /** Flipping twice the same way gives the frame back. */
  lemma FlipsTwice(f: Frame)
    requires Valid(f)
    ensures HFlip(HFlip(f)) == f && VFlip(VFlip(f)) == f
  {
    FlipsMirror(f);
    FlipsMirror(HFlip(f));
    FlipsMirror(VFlip(f));
    SameBytes(HFlip(HFlip(f)), f);
    SameBytes(VFlip(VFlip(f)), f);
  }

  /** The two flips commute, so the order of the switches does not
      matter. */
  lemma FlipsCommute(f: Frame)
    requires Valid(f)
    ensures VFlip(HFlip(f)) == HFlip(VFlip(f))
  {
    FlipsMirror(f);
    FlipsMirror(HFlip(f));
    FlipsMirror(VFlip(f));
    SameBytes(VFlip(HFlip(f)), HFlip(VFlip(f)));
  }

  // ---------------------------------------------------------------------
  // Grayscale
  // ---------------------------------------------------------------------

  /** A weighting of the red, green and blue bytes of a pixel. */
  type Luma = (Byte, Byte, Byte) -> Byte

  /** The weighting applied to pixel `(i, j)`, whose bytes are stored blue,
      green, red. */
  function Weigh(f: Frame, luma: Luma, i: int, j: int): Byte
  {
    luma(Px(f, i, j, 2), Px(f, i, j, 1), Px(f, i, j, 0))
  }

  /** The weighting applied to row `i` of a plane three pixels wide: the
      channel reversal of the perceptual conversion reverses the columns
      of a plane, so the row reads as red, green, blue from right to
      left. */
  function WeighRow(f: Frame, luma: Luma, i: int): Byte
  {
    luma(Px(f, i, 2, 0), Px(f, i, 1, 0), Px(f, i, 0, 0))
  }

  /** A plane exactly three pixels wide, which the numpy dot product with
      the three weights accepts. */
  predicate ThreeWide(f: Frame)
  {
    f.flat && f.width == 3
  }

  /** `to_fidelous_grayscale`: a four-channel frame keeps four channels,
      the gray value three times and the alpha byte unchanged; a
      three-channel frame becomes one plane. A plane three pixels wide
      becomes one gray byte per row: numpy gives a one-dimensional array,
      which the library calls after it take as a column one pixel wide.
      Any other plane or channel count makes the dot product raise. */
  function PerceptualGray(f: Frame, luma: Luma): (r: Option<Frame>)
    ensures r.Some? <==> (!f.flat && (f.channels == 3 || f.channels == 4)) || ThreeWide(f)
    ensures r.Some? ==> r.value.height == f.height && r.value.width == (if f.flat then 1 else f.width)
    ensures r.Some? && !f.flat && f.channels == 4 ==> r.value.channels == 4 && !r.value.flat
    ensures r.Some? && (f.flat || f.channels == 3) ==> r.value.channels == 1 && r.value.flat
    ensures r.Some? ==> Valid(r.value)
  {
    BuildReads(f.height, f.width, 4, false, GrayAlpha(luma), f);
    BuildReads(f.height, f.width, 1, true, GrayPlane(luma), f);
    BuildReads(f.height, 1, 1, true, GrayColumn(luma), f);
    if f.flat then
      if f.width == 3 then Some(Build(f.height, 1, 1, true, GrayColumn(luma), f)) else None
    else if f.channels == 4 then
      Some(Build(f.height, f.width, 4, false, GrayAlpha(luma), f))
    else if f.channels == 3 then
      Some(Build(f.height, f.width, 1, true, GrayPlane(luma), f))
    else None
  }

  /** With alpha, every pixel becomes `(g, g, g, alpha)`. */
  lemma PerceptualKeepsAlpha(f: Frame, luma: Luma)
    requires Valid(f) && !f.flat && f.channels == 4
    ensures Valid(PerceptualGray(f, luma).value)
    ensures forall i, j :: 0 <= i < f.height && 0 <= j < f.width ==>
              var g := PerceptualGray(f, luma).value;
              Px(g, i, j, 0) == Px(g, i, j, 1) == Px(g, i, j, 2) == Weigh(f, luma, i, j) &&
              Px(g, i, j, 3) == Px(f, i, j, 3)
  {
    BuildReads(f.height, f.width, 4, false, GrayAlpha(luma), f);
  }

  /** Without alpha, each pixel becomes its one gray byte. */
  lemma PerceptualFlattens(f: Frame, luma: Luma)
    requires Valid(f) && !f.flat && f.channels == 3
    ensures Valid(PerceptualGray(f, luma).value)
    ensures forall i, j :: 0 <= i < f.height && 0 <= j < f.width ==>
              Px(PerceptualGray(f, luma).value, i, j, 0) == Weigh(f, luma, i, j)
  {
    BuildReads(f.height, f.width, 1, true, GrayPlane(luma), f);
  }

  /** A plane three pixels wide becomes a column with one gray byte per
      row. */
  lemma PerceptualColumn(f: Frame, luma: Luma)
    requires Valid(f) && ThreeWide(f)
    ensures var g := PerceptualGray(f, luma).value;
            Valid(g) && g.flat && g.height == f.height && g.width == 1 &&
            forall i :: 0 <= i < f.height ==> Px(g, i, 0, 0) == WeighRow(f, luma, i)
  {
    BuildReads(f.height, 1, 1, true, GrayColumn(luma), f);
  }

  /** `to_simple_grayscale`: the library's conversion of a colour frame
      (alpha dropped) to one plane; on a plane it raises. */
  function SimpleGray(f: Frame, simple: Luma): (r: Option<Frame>)
    ensures r.Some? <==> !f.flat && (f.channels == 3 || f.channels == 4)
    ensures r.Some? ==> r.value.flat && r.value.channels == 1 && r.value.height == f.height && r.value.width == f.width
    ensures r.Some? ==> Valid(r.value)
  {
    BuildReads(f.height, f.width, 1, true, GrayPlane(simple), f);
    if f.flat || (f.channels != 3 && f.channels != 4) then None
    else Some(Build(f.height, f.width, 1, true, GrayPlane(simple), f))
  }

  /** Only the perceptual conversion takes a plane three pixels wide. */
  predicate ColumnGray(mode: GrayMode, f: Frame)
  {
    mode == Perceptual && ThreeWide(f)
  }

  /** The frames the conversion of either mode does not raise on. */
  predicate Grayable(mode: GrayMode, f: Frame)
  {
    (!f.flat && (f.channels == 3 || f.channels == 4)) || ColumnGray(mode, f)
  }

  function Gray(mode: GrayMode, f: Frame, luma: Luma, simple: Luma): (r: Option<Frame>)
    ensures r.Some? <==> Grayable(mode, f)
    ensures r.Some? ==> Valid(r.value) && r.value.height == f.height &&
                        r.value.width == (if ColumnGray(mode, f) then 1 else f.width)
    ensures r.Some? ==> r.value.flat || r.value.channels == 4
  {
    if mode == Simple then SimpleGray(f, simple) else PerceptualGray(f, luma)
  }

  // ---------------------------------------------------------------------
  // Display conversion
  // ---------------------------------------------------------------------

  /** Blue-green-red(-alpha) to red-green-blue(-alpha). */
  function SwapChannels(f: Frame): (r: Frame)
    ensures r.height == f.height && r.width == f.width && r.channels == f.channels && r.flat == f.flat
    ensures Valid(f) ==> Valid(r)
  {
    BuildReads(f.height, f.width, f.channels, f.flat, SwapRedBlue, f);
    Build(f.height, f.width, f.channels, f.flat, SwapRedBlue, f)
  }

  /** The swap exchanges the first and third channel and keeps the rest,
      so doing it twice gives the frame back. */
  lemma SwapTwice(f: Frame)
    requires Valid(f) && f.channels >= 3
    ensures forall i, j :: 0 <= i < f.height && 0 <= j < f.width ==>
              Px(SwapChannels(f), i, j, 0) == Px(f, i, j, 2) && Px(SwapChannels(f), i, j, 2) == Px(f, i, j, 0) &&
              Px(SwapChannels(f), i, j, 1) == Px(f, i, j, 1)
    ensures SwapChannels(SwapChannels(f)) == f
  {
    BuildReads(f.height, f.width, f.channels, f.flat, SwapRedBlue, f);
    var g := SwapChannels(f);
    BuildReads(g.height, g.width, g.channels, g.flat, SwapRedBlue, g);
    SameBytes(SwapChannels(g), f);
  }

  datatype Format = Grayscale8 | Rgb888 | Rgba8888

  /** What happens to the displayed picture: it is refused with an error
      title and the previous picture stays; an exception escapes; or the
      frame is shown in a format. */
  datatype Outcome = Refused | Raised | Shown(format: Format, frame: Frame)

  /** A plane is shown as gray bytes; three or four channels are swapped
      to red-first order; any other count is refused. */
  function Display(f: Frame): (r: Outcome)
    ensures r.Refused? <==> !f.flat && f.channels != 3 && f.channels != 4
    ensures r.Shown? ==> r.frame.height == f.height && r.frame.width == f.width
  {
    if f.flat then Shown(Grayscale8, f)
    else if f.channels == 4 then Shown(Rgba8888, SwapChannels(f))
    else if f.channels == 3 then Shown(Rgb888, SwapChannels(f))
    else Refused
  }

  // ---------------------------------------------------------------------
  // prepare_image_mods
  // ---------------------------------------------------------------------

  /** Parameters standing for the library's numerics. */
  datatype Library = Library(level: Byte -> Byte, luma: Luma, simple: Luma, edges: Frame -> Frame)

  /** The edge detector gives one plane of the frame's size. */
  ghost predicate EdgesArePlanes(lib: Library)
  {
    forall g: Frame {:trigger lib.edges(g)} :: Valid(g) ==>
      Valid(lib.edges(g)) && lib.edges(g).flat && lib.edges(g).height == g.height && lib.edges(g).width == g.width
  }

  /** Brightness and contrast, when either is off its default. */
  function Scale(m: Mods, f: Frame, level: Byte -> Byte): (r: Frame)
    ensures r.height == f.height && r.width == f.width && r.channels == f.channels && r.flat == f.flat
    ensures Valid(f) ==> Valid(r)
  {
    if Scaled(m) then MapBytes(f, level) else f
  }

  /** Whether a gray frame is computed at all. */
  predicate NeedsGray(m: Mods)
  {
    GrayActive(m) || m.threshold || m.edge
  }

  /** Grayscale, then threshold, then edges, each of the later ones
      replacing what the earlier gave. */
  function Tone(m: Mods, scaled: Frame, gray: Frame, edges: Frame -> Frame): Frame
  {
    var toned := if GrayActive(m) then gray else scaled;
    var bw := if m.threshold then Threshold(gray) else toned;
    if m.edge then edges(gray) else bw
  }

  /** The flips, horizontal first. */
  function Orient(m: Mods, f: Frame): (r: Frame)
    ensures r.height == f.height && r.width == f.width && r.channels == f.channels && r.flat == f.flat
    ensures Valid(f) ==> Valid(r)
  {
    var h := if m.hflip then HFlip(f) else f;
    if m.vflip then VFlip(h) else h
  }

  /** The one-dimensional gray array of a plane three pixels wide is
      handed on unchanged to the final shape read: grayscale is on and no
      threshold, edge detector or flip turns it into a column first. Its
      shape has one element, so unpacking height and width from it
      raises. */
  predicate BareVector(m: Mods, f: Frame)
  {
    ColumnGray(m.grayMode, f) && !m.threshold && !m.edge && !m.hflip && !m.vflip
  }

  /** The frame after the modifications, from a frame already accepted,
      or `None` when the grayscale conversion or the final shape read
      raises. */
  function Modify(m: Mods, f: Frame, lib: Library): Option<Frame>
  {
    var scaled := Scale(m, f, lib.level);
    if !NeedsGray(m) then Some(Orient(m, scaled))
    else if BareVector(m, scaled) then None
    else
      match Gray(m.grayMode, scaled, lib.luma, lib.simple)
      case None => None
      case Some(gray) => Some(Orient(m, Tone(m, scaled, gray, lib.edges)))
  }

  /** `prepare_image_mods`, given what each reader gets from the current
      path. Getting no bytes raises in either reader; bytes the decoder
      cannot read are refused, and so is an empty frame or one with an
      unusual channel count. */
  function Prepare(m: Mods, path: string, qt: Read, raw: Read, lib: Library): (r: Outcome)
    ensures Chosen(m.onBreak, path, qt, raw).NoBytes? ==> r == Raised
    ensures Chosen(m.onBreak, path, qt, raw).Undecodable? ==> r == Refused
  {
    match Chosen(m.onBreak, path, qt, raw)
    case NoBytes => Raised
    case Undecodable => Refused
    case Decoded(d) =>
      if Empty(d) || !ChannelsOk(d) then Refused
      else
        match Modify(m, d, lib)
        case None => Raised
        case Some(f) => Display(f)
  }

  /** The frame a reader gives is refused exactly when it is empty or has
      a channel count other than 1, 3 or 4, provided the edge detector gives
      planes. */
  lemma RefusedExactly(m: Mods, path: string, qt: Read, raw: Read, lib: Library)
    requires EdgesArePlanes(lib)
    requires ReaderFor(m.onBreak, path) == QtColor ==> qt.Decoded? && Decodable(qt.frame)
    requires ReaderFor(m.onBreak, path) == FileUnchanged ==> raw.Decoded? && Valid(raw.frame)
    ensures var d := Chosen(m.onBreak, path, qt, raw).frame;
            Prepare(m, path, qt, raw, lib) == Refused <==>
              Empty(d) || !ChannelsOk(d) || (!d.flat && d.channels == 1 && !GrayActive(m) && !m.threshold && !m.edge)
  {
    var d := Chosen(m.onBreak, path, qt, raw).frame;
    if !Empty(d) && ChannelsOk(d) {
      ModifyShape(m, d, lib);
    }
  }

  /** The modifications keep the frame's height, and its width except when
      a plane three pixels wide becomes a gray column; without the
      grayscale, threshold and edge switches they keep its channels too,
      and with any of them the result is a plane or has alpha. They fail
      exactly when the conversion meets a frame it cannot take, or when
      the gray array of a three-wide plane reaches the final shape read
      unchanged. */
  lemma ModifyShape(m: Mods, f: Frame, lib: Library)
    requires EdgesArePlanes(lib)
    requires Valid(f)
    ensures Modify(m, f, lib).Some? ==>
              Valid(Modify(m, f, lib).value) && Modify(m, f, lib).value.height == f.height &&
              Modify(m, f, lib).value.width == (if NeedsGray(m) && ColumnGray(m.grayMode, f) then 1 else f.width)
    ensures Modify(m, f, lib).Some? && !NeedsGray(m) ==>
              Modify(m, f, lib).value.flat == f.flat && Modify(m, f, lib).value.channels == f.channels
    ensures Modify(m, f, lib).Some? && NeedsGray(m) ==>
              Modify(m, f, lib).value.flat || Modify(m, f, lib).value.channels == 4
    ensures Modify(m, f, lib).None? <==> NeedsGray(m) && (!Grayable(m.grayMode, f) || BareVector(m, f))
  {
    var scaled := Scale(m, f, lib.level);
    if NeedsGray(m) && !BareVector(m, scaled) && Gray(m.grayMode, scaled, lib.luma, lib.simple).Some? {
      var gray := Gray(m.grayMode, scaled, lib.luma, lib.simple).value;
      var t := Tone(m, scaled, gray, lib.edges);
      assert Valid(t) && t.height == f.height && (t.flat || t.channels == 4);
      assert t.width == (if ColumnGray(m.grayMode, f) then 1 else f.width);
    }
  }

  /** With the edge switch on, the threshold and grayscale switches do not
      change what is shown: the edges replace the frame. */
  lemma EdgeOverrides(m: Mods, path: string, qt: Read, raw: Read, lib: Library, threshold: bool, grayscale: bool)
    requires m.edge
    ensures Prepare(m.(threshold := threshold, grayscale := grayscale), path, qt, raw, lib) ==
            Prepare(m.(threshold := false, grayscale := false), path, qt, raw, lib)
  {
    var read := Chosen(m.onBreak, path, qt, raw);
    if read.Decoded? {
      var d := read.frame;
      PrepareFrom(m.(threshold := threshold, grayscale := grayscale), path, qt, raw, lib, d);
      PrepareFrom(m.(threshold := false, grayscale := false), path, qt, raw, lib, d);
      EdgeModify(m, d, lib, threshold, grayscale);
    }
  }

  /** With the edge switch on, the modifications do not depend on the
      threshold and grayscale switches. */
  lemma EdgeModify(m: Mods, f: Frame, lib: Library, threshold: bool, grayscale: bool)
    requires m.edge
    ensures Modify(m.(threshold := threshold, grayscale := grayscale), f, lib) ==
            Modify(m.(threshold := false, grayscale := false), f, lib)
  {
    var a := m.(threshold := threshold, grayscale := grayscale);
    var b := m.(threshold := false, grayscale := false);
    assert NeedsGray(a) && NeedsGray(b);
    var s := Scale(b, f, lib.level);
    assert Scale(a, f, lib.level) == s;
    assert !BareVector(a, s) && !BareVector(b, s);
    match Gray(m.grayMode, s, lib.luma, lib.simple)
    case None =>
    case Some(g) =>
      assert Tone(a, s, g, lib.edges) == lib.edges(g) == Tone(b, s, g, lib.edges);
      assert Orient(a, lib.edges(g)) == Orient(b, lib.edges(g));
  }

  /** With every switch off and brightness and contrast at their defaults
      the frame is left as decoded. */
  lemma PlainModify(f: Frame, lib: Library)
    ensures Modify(Defaults, f, lib) == Some(f)
  {
  }

  /** With the default modifications an accepted colour frame is shown as
      decoded, in red-first order. */
  lemma PlainShow(path: string, qt: Read, raw: Read, lib: Library, d: Frame)
    requires Chosen(false, path, qt, raw) == Decoded(d)
    requires !d.flat && d.channels == 3
    ensures Prepare(Defaults, path, qt, raw, lib) == (if Empty(d) then Refused else Shown(Rgb888, SwapChannels(d)))
  {
    PrepareFrom(Defaults, path, qt, raw, lib, d);
    PlainModify(d, lib);
    assert Display(d) == Shown(Rgb888, SwapChannels(d));
    if !Empty(d) {
      assert ChannelsOk(d);
      assert Prepare(Defaults, path, qt, raw, lib) == Display(d);
    }
  }

  /** `Prepare` once the reader's frame `d` is known. */
  lemma PrepareFrom(m: Mods, path: string, qt: Read, raw: Read, lib: Library, d: Frame)
    requires Chosen(m.onBreak, path, qt, raw) == Decoded(d)
    ensures Empty(d) || !ChannelsOk(d) ==> Prepare(m, path, qt, raw, lib) == Refused
    ensures !Empty(d) && ChannelsOk(d) && Modify(m, d, lib).None? ==> Prepare(m, path, qt, raw, lib) == Raised
    ensures !Empty(d) && ChannelsOk(d) && Modify(m, d, lib).Some? ==>
              Prepare(m, path, qt, raw, lib) == Display(Modify(m, d, lib).value)
  {
  }

  /** A plane cannot be turned gray again: with a grayscale switch on, a
      one-plane file makes the picture raise, except a plane three pixels
      wide in perceptual mode whose gray column is thresholded, edged or
      flipped on its way to the display. */
  lemma GrayPlaneRaises(m: Mods, path: string, qt: Read, raw: Read, lib: Library, d: Frame)
    requires ReaderFor(m.onBreak, path) == FileUnchanged
    requires raw == Decoded(d) && d.flat && !Empty(d) && d.channels == 1
    requires GrayActive(m)
    ensures Prepare(m, path, qt, raw, lib) == Raised <==>
              !(m.grayMode == Perceptual && d.width == 3 && (m.threshold || m.edge || m.hflip || m.vflip))
  {
  }

  /** A plane three pixels wide in perceptual mode, with grayscale on and a
      flip but no threshold or edges: its gray column is shown as gray
      bytes, one per row, mirrored with the flips. */
  lemma ColumnShown(m: Mods, path: string, qt: Read, raw: Read, lib: Library, d: Frame)
    requires Chosen(m.onBreak, path, qt, raw) == Decoded(d)
    requires Valid(d) && ThreeWide(d) && d.height > 0
    requires m.grayMode == Perceptual && GrayActive(m) && !m.threshold && !m.edge && (m.hflip || m.vflip)
    ensures Prepare(m, path, qt, raw, lib).Shown?
    ensures var g := Prepare(m, path, qt, raw, lib).frame;
            var scaled := Scale(m, d, lib.level);
            Prepare(m, path, qt, raw, lib).format == Grayscale8 && g.height == d.height && g.width == 1 &&
            forall i :: 0 <= i < d.height ==>
              Px(g, i, 0, 0) == WeighRow(scaled, lib.luma, if m.vflip then d.height - 1 - i else i)
  {
    var scaled := Scale(m, d, lib.level);
    PerceptualColumn(scaled, lib.luma);
    var column := PerceptualGray(scaled, lib.luma).value;
    OrientColumn(m, column);
    ColumnModify(m, d, lib);
    PrepareFrom(m, path, qt, raw, lib, d);
  }

  /** The modifications of `ColumnShown` give the flipped gray column. */
  lemma ColumnModify(m: Mods, d: Frame, lib: Library)
    requires ThreeWide(d)
    requires m.grayMode == Perceptual && GrayActive(m) && !m.threshold && !m.edge && (m.hflip || m.vflip)
    ensures Modify(m, d, lib) == Some(Orient(m, PerceptualGray(Scale(m, d, lib.level), lib.luma).value))
  {
    var scaled := Scale(m, d, lib.level);
    assert NeedsGray(m) && !BareVector(m, scaled) && Grayable(m.grayMode, scaled);
  }

  /** Flipping a column one pixel wide: the horizontal flip leaves it
      alone and the vertical flip reverses its rows. */
  lemma OrientColumn(m: Mods, c: Frame)
    requires Valid(c) && c.flat && c.width == 1
    ensures var g := Orient(m, c);
            Valid(g) && g.flat && g.height == c.height && g.width == 1 &&
            forall i :: 0 <= i < c.height ==> Px(g, i, 0, 0) == Px(c, if m.vflip then c.height - 1 - i else i, 0, 0)
  {
    FlipsMirror(c);
    var h := if m.hflip then HFlip(c) else c;
    FlipsMirror(h);
  }
}
