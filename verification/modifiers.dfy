/** The image modifications the player applies to the shown frame: the
    flip, grayscale, threshold and edge switches, brightness and contrast,
    the grayscale mode, and the two flags a scheduled break sets. Contrast
    is a `real`: the source adds and subtracts `0.1` in binary floating
    point, whose rounding is not modelled. */
module Modifiers {

  datatype GrayMode = Perceptual | Simple

  /** The `image_mods` dictionary. */
  datatype Mods = Mods(
    onBreak: bool,
    grayscale: bool,
    hflip: bool,
    vflip: bool,
    breakGrayscale: bool,
    brightness: int,
    contrast: real,
    threshold: bool,
    edge: bool,
    grayMode: GrayMode)

  const MinBrightness: int := -100
  const MaxBrightness: int := 100
  const BrightnessStep: int := 10
  const MinContrast: real := 0.1
  const MaxContrast: real := 3.0
  const ContrastStep: real := 0.1

  /** `init_image_mods`: everything off, brightness 0, contrast 1, the
      perceptual grayscale. */
  const Defaults: Mods := Mods(false, false, false, false, false, 0, 1.0, false, false, Perceptual)

  /** The values the keys can reach: brightness a multiple of ten within
      its bounds, contrast within its bounds. */
  predicate Valid(m: Mods)
  {
    MinBrightness <= m.brightness <= MaxBrightness && m.brightness % BrightnessStep == 0 &&
    MinContrast <= m.contrast <= MaxContrast
  }

  /** Whether the shown frame passes through `convertScaleAbs`. */
  predicate Scaled(m: Mods)
  {
    m.brightness != 0 || m.contrast != 1.0
  }

  /** Grayscale is on, by the user's switch or by a break. */
  predicate GrayActive(m: Mods)
  {
    m.grayscale || m.breakGrayscale
  }

  // ---------------------------------------------------------------------
  // The switches
  // ---------------------------------------------------------------------

  function FlipHorizontal(m: Mods): (r: Mods)
    ensures r.hflip != m.hflip && r.(hflip := m.hflip) == m
  {
    m.(hflip := !m.hflip)
  }

  function FlipVertical(m: Mods): (r: Mods)
    ensures r.vflip != m.vflip && r.(vflip := m.vflip) == m
  {
    m.(vflip := !m.vflip)
  }

  function Grayscale(m: Mods): (r: Mods)
    ensures r.grayscale != m.grayscale && r.(grayscale := m.grayscale) == m
  {
    m.(grayscale := !m.grayscale)
  }

  function ToggleThreshold(m: Mods): (r: Mods)
    ensures r.threshold != m.threshold && r.(threshold := m.threshold) == m
  {
    m.(threshold := !m.threshold)
  }

  function ToggleEdge(m: Mods): (r: Mods)
    ensures r.edge != m.edge && r.(edge := m.edge) == m
  {
    m.(edge := !m.edge)
  }

  function ToggleGrayscaleMode(m: Mods): (r: Mods)
    ensures r.grayMode != m.grayMode && r.(grayMode := m.grayMode) == m
  {
    m.(grayMode := if m.grayMode == Perceptual then Simple else Perceptual)
  }

  /** Each switch undoes itself. */
  lemma SwitchesTwice(m: Mods)
    ensures FlipHorizontal(FlipHorizontal(m)) == m && FlipVertical(FlipVertical(m)) == m
    ensures Grayscale(Grayscale(m)) == m && ToggleThreshold(ToggleThreshold(m)) == m
    ensures ToggleEdge(ToggleEdge(m)) == m && ToggleGrayscaleMode(ToggleGrayscaleMode(m)) == m
  {
  }

  // ---------------------------------------------------------------------
  // Brightness and contrast
  // ---------------------------------------------------------------------

  /** One step up, held at the top bound; nothing else changes. */
  function IncreaseBrightness(m: Mods): (r: Mods)
    ensures r == m.(brightness := r.brightness)
    ensures r.brightness <= MaxBrightness || r.brightness == m.brightness + BrightnessStep
    ensures m.brightness <= MaxBrightness - BrightnessStep ==> r.brightness == m.brightness + BrightnessStep
    ensures m.brightness >= MaxBrightness - BrightnessStep ==> r.brightness == MaxBrightness
  {
    m.(brightness := if m.brightness + BrightnessStep < MaxBrightness then m.brightness + BrightnessStep else MaxBrightness)
  }

  /** One step down, held at the bottom bound; nothing else changes. */
  function DecreaseBrightness(m: Mods): (r: Mods)
    ensures r == m.(brightness := r.brightness)
    ensures m.brightness >= MinBrightness + BrightnessStep ==> r.brightness == m.brightness - BrightnessStep
    ensures m.brightness <= MinBrightness + BrightnessStep ==> r.brightness == MinBrightness
  {
    m.(brightness := if m.brightness - BrightnessStep > MinBrightness then m.brightness - BrightnessStep else MinBrightness)
  }

  function IncreaseContrast(m: Mods): (r: Mods)
    ensures r == m.(contrast := r.contrast)
    ensures m.contrast <= MaxContrast - ContrastStep ==> r.contrast == m.contrast + ContrastStep
    ensures m.contrast >= MaxContrast - ContrastStep ==> r.contrast == MaxContrast
  {
    m.(contrast := if m.contrast + ContrastStep < MaxContrast then m.contrast + ContrastStep else MaxContrast)
  }

  function DecreaseContrast(m: Mods): (r: Mods)
    ensures r == m.(contrast := r.contrast)
    ensures m.contrast >= MinContrast + ContrastStep ==> r.contrast == m.contrast - ContrastStep
    ensures m.contrast <= MinContrast + ContrastStep ==> r.contrast == MinContrast
  {
    m.(contrast := if m.contrast - ContrastStep > MinContrast then m.contrast - ContrastStep else MinContrast)
  }

  /** Brightness moves on multiples of ten, so below the top one step is
      a whole step. */
  lemma OnLattice(b: int)
    requires MinBrightness <= b <= MaxBrightness && b % BrightnessStep == 0
    ensures b < MaxBrightness ==> b <= MaxBrightness - BrightnessStep
    ensures b > MinBrightness ==> b >= MinBrightness + BrightnessStep
  {
    var q := b / BrightnessStep;
    assert b == BrightnessStep * q;
    assert -10 <= q <= 10;
  }

  /** Below the top, one step down undoes one step up, and above the
      bottom the other way round. */
  lemma BrightnessStepsUndo(m: Mods)
    requires Valid(m)
    ensures m.brightness < MaxBrightness ==> DecreaseBrightness(IncreaseBrightness(m)) == m
    ensures m.brightness > MinBrightness ==> IncreaseBrightness(DecreaseBrightness(m)) == m
  {
    OnLattice(m.brightness);
  }

  lemma ContrastStepsUndo(m: Mods)
    requires Valid(m)
    ensures m.contrast <= MaxContrast - ContrastStep ==> DecreaseContrast(IncreaseContrast(m)) == m
    ensures m.contrast >= MinContrast + ContrastStep ==> IncreaseContrast(DecreaseContrast(m)) == m
  {
  }

  /** `n` presses of the brightness-up key. */
  function Brighten(m: Mods, n: nat): (r: Mods)
    ensures r == m.(brightness := r.brightness)
  {
    if n == 0 then m else IncreaseBrightness(Brighten(m, n - 1))
  }

  /** Enough presses reach the top bound and stay there. */
  lemma {:induction false} BrightenSaturates(m: Mods, n: nat)
    requires Valid(m)
    requires BrightnessStep * n >= MaxBrightness - m.brightness
    ensures Brighten(m, n).brightness == MaxBrightness
  {
    if m.brightness == MaxBrightness {
      BrightenStaysTop(m, n);
    } else {
      var k := (MaxBrightness - m.brightness) / BrightnessStep;
      BrightenBelowTop(m, k);
      BrightenStaysTop(Brighten(m, k), n - k);
      BrightenSplit(m, k, n - k);
    }
  }

  lemma {:induction false} BrightenStaysTop(m: Mods, n: nat)
    requires m.brightness == MaxBrightness
    ensures Brighten(m, n).brightness == MaxBrightness
  {
    if n > 0 {
      BrightenStaysTop(m, n - 1);
    }
  }

  /** Each press below the top adds exactly one step. */
  lemma {:induction false} BrightenBelowTop(m: Mods, n: nat)
    requires m.brightness + BrightnessStep * n <= MaxBrightness
    ensures Brighten(m, n).brightness == m.brightness + BrightnessStep * n
  {
    if n > 0 {
      BrightenBelowTop(m, n - 1);
    }
  }

  lemma {:induction false} BrightenSplit(m: Mods, a: nat, b: nat)
    ensures Brighten(Brighten(m, a), b) == Brighten(m, a + b)
  {
    if b > 0 {
      BrightenSplit(m, a, b - 1);
    }
  }

  // ---------------------------------------------------------------------
  // Reset and breaks
  // ---------------------------------------------------------------------

  /** `reset_image_mods`: back to the defaults, whatever was set, including
      the two break flags. */
  function Reset(m: Mods): (r: Mods)
    ensures Valid(r) && !r.onBreak && !r.breakGrayscale && !Scaled(r)
    ensures !r.hflip && !r.vflip && !r.grayscale && !r.threshold && !r.edge && r.grayMode == Perceptual
  {
    Defaults
  }

  /** The break flags `display_image` sets when it shows a break and clears
      otherwise; the break's grayscale follows the break. */
  function MarkBreak(m: Mods, isBreak: bool): (r: Mods)
    ensures r.onBreak == isBreak && r.breakGrayscale == isBreak
    ensures r.(onBreak := m.onBreak, breakGrayscale := m.breakGrayscale) == m
  {
    m.(onBreak := isBreak, breakGrayscale := isBreak)
  }

  /** The countdown drops the break's grayscale once the break's time is
      nearly over. */
  function EndBreakGrayscale(m: Mods): (r: Mods)
    ensures !r.breakGrayscale && r.(breakGrayscale := m.breakGrayscale) == m
  {
    m.(breakGrayscale := false)
  }

  // ---------------------------------------------------------------------
  // Key presses in sequence
  // ---------------------------------------------------------------------

  datatype Key =
    | HFlipKey | VFlipKey | GrayKey | ThresholdKey | EdgeKey | ModeKey
    | BrighterKey | DarkerKey | MoreContrastKey | LessContrastKey | ResetKey

  function Press(m: Mods, k: Key): Mods
  {
    match k
    case HFlipKey => FlipHorizontal(m)
    case VFlipKey => FlipVertical(m)
    case GrayKey => Grayscale(m)
    case ThresholdKey => ToggleThreshold(m)
    case EdgeKey => ToggleEdge(m)
    case ModeKey => ToggleGrayscaleMode(m)
    case BrighterKey => IncreaseBrightness(m)
    case DarkerKey => DecreaseBrightness(m)
    case MoreContrastKey => IncreaseContrast(m)
    case LessContrastKey => DecreaseContrast(m)
    case ResetKey => Reset(m)
  }

  function PressAll(m: Mods, keys: seq<Key>): (r: Mods)
    decreases |keys|
  {
    if keys == [] then m else PressAll(Press(m, keys[0]), keys[1..])
  }

  /** One key press keeps the modifiers in range. */
  lemma PressKeepsValid(m: Mods, k: Key)
    requires Valid(m)
    ensures Valid(Press(m, k))
  {
    match k
    case BrighterKey => OnLattice(m.brightness);
    case DarkerKey => OnLattice(m.brightness);
    case _ =>
  }

  /** Whatever keys are pressed from the defaults, brightness stays a
      multiple of ten in [-100, 100] and contrast in [0.1, 3.0]. */
  lemma {:induction false} PressAllKeepsValid(m: Mods, keys: seq<Key>)
    requires Valid(m)
    ensures Valid(PressAll(m, keys))
    decreases |keys|
  {
    if keys != [] {
      PressKeepsValid(m, keys[0]);
      PressAllKeepsValid(Press(m, keys[0]), keys[1..]);
    }
  }

  lemma DefaultsValid()
    ensures Valid(Defaults) && !Scaled(Defaults)
  {
  }
}
