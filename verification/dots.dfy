/** The dot row under the picture that shows progress through the current
    entry: one dot per image in sets of ten, a chevron when later sets
    follow, break dots, and the pulse that announces the sets still to
    come. Only the arithmetic is modelled; the pulse's brightness and the
    painting geometry beyond the row widths are left out. */
module Dots {

  const SetSize: int := 10

  /** How many pulses are left: a count, or unlimited. */
  datatype Remaining = Finite(n: int) | Unlimited

  /** The pulse timer: whether it runs, and the pulses it still has. */
  datatype Pulse = Pulse(running: bool, left: Remaining)

  /** The widget's progress state: `maximum` images in the row (0 makes
      the whole row one break dot), the 1-based current `value`, the
      0-based indices drawn as breaks, and the pulse. */
  datatype Indicator = Indicator(maximum: int, value: int, breaks: set<int>, pulse: Pulse)

  const Initial: Indicator := Indicator(1, 1, {}, Pulse(false, Finite(0)))

  predicate IsRowBreak(d: Indicator)
  {
    d.maximum == 0
  }

  function Max(a: int, b: int): int { if a >= b then a else b }
  function Min(a: int, b: int): int { if a <= b then a else b }

  /** Integer ceiling of `a / b` for a positive `b`. */
  function CeilDiv(a: int, b: int): (q: int)
    requires b > 0
    ensures b * q >= a && b * (q - 1) < a
  {
    var q := (a + b - 1) / b;
    assert b * q <= a + b - 1 < b * q + b;
    q
  }

  /** The first index of the set of ten holding `value`. Python's `//` is
      floor division, which for a positive divisor is Dafny's `/`. */
  function SetStart(value: int): (s: int)
    ensures s % SetSize == 0 && s <= value - 1 < s + SetSize
  {
    ((value - 1) / SetSize) * SetSize
  }

  /** There is only one such start: the set of a value is determined. */
  lemma SetStartUnique(value: int, s: int)
    requires s % SetSize == 0 && s <= value - 1 < s + SetSize
    ensures s == SetStart(value)
  {
    var t := SetStart(value);
    var a, b := s / SetSize, t / SetSize;
    assert s == SetSize * a && t == SetSize * b;
    assert SetSize * (a - b) < SetSize && SetSize * (b - a) < SetSize;
  }

  /** Sets of ten that follow the current one. */
  function SetsLeft(d: Indicator): (n: int)
    ensures n >= 0
    ensures IsRowBreak(d) ==> n == 0
  {
    if IsRowBreak(d) then 0
    else CeilDiv(Max(0, d.maximum - (SetStart(d.value) + SetSize)), SetSize)
  }

  /** Outside a row break, the sets left are those needed for the images
      after the current set: `n` sets of ten hold them and `n - 1` do not. */
  lemma SetsLeftCount(d: Indicator)
    requires !IsRowBreak(d)
    ensures var after := d.maximum - (SetStart(d.value) + SetSize);
            (after <= 0 ==> SetsLeft(d) == 0) &&
            (after > 0 ==> SetSize * SetsLeft(d) >= after && SetSize * (SetsLeft(d) - 1) < after)
  {
  }

  /** What `_layout_counts` returns. */
  datatype Layout = Layout(dots: int, chevron: bool, start: int)

  function LayoutCounts(d: Indicator): (r: Layout)
    ensures IsRowBreak(d) ==> r == Layout(1, false, 0)
    ensures !IsRowBreak(d) ==> r.start == SetStart(d.value)
    ensures !IsRowBreak(d) ==> (r.chevron <==> d.maximum > r.start + SetSize)
    ensures !IsRowBreak(d) ==> r.dots + (if r.chevron then 1 else 0) == Min(SetSize, d.maximum - r.start)
  {
    if IsRowBreak(d) then Layout(1, false, 0)
    else
      var start := SetStart(d.value);
      var inSet := Min(SetSize, d.maximum - start);
      var chevron := d.maximum - (start + SetSize) > 0;
      Layout(inSet - (if chevron then 1 else 0), chevron, start)
  }

  /** With a chevron the row has nine dots; the chevron stands for the
      tenth image of the set. */
  lemma ChevronLeavesNine(d: Indicator)
    requires !IsRowBreak(d) && LayoutCounts(d).chevron
    ensures LayoutCounts(d).dots == SetSize - 1
    ensures SetsLeft(d) > 0
  {
  }

  /** The chevron shows exactly when sets follow. */
  lemma ChevronIffSetsLeft(d: Indicator)
    requires !IsRowBreak(d)
    ensures LayoutCounts(d).chevron <==> SetsLeft(d) > 0
  {
  }

  // ---------------------------------------------------------------------
  // Setters
  // ---------------------------------------------------------------------

  /** `setMaximum`: negative counts are held at 0; a row break forces the
      value to 1 and stops the pulse. */
  function SetMaximum(d: Indicator, maximum: int): (r: Indicator)
    ensures r.maximum == Max(0, maximum) && r.breaks == d.breaks
    ensures maximum <= 0 ==> r.value == 1 && !r.pulse.running && r.pulse.left == d.pulse.left
    ensures maximum > 0 ==> r == d.(maximum := maximum)
  {
    var e := d.(maximum := Max(0, maximum));
    if IsRowBreak(e) then e.(value := 1, pulse := e.pulse.(running := false)) else e
  }

  /** The break indices drawn in the current set, relative to its start. */
  function LocalBreaks(breaks: set<int>, start: int, dots: int): set<int>
  {
    set i | i in breaks && start <= i < start + dots :: i - start
  }

  lemma LocalBreaksAt(breaks: set<int>, start: int, dots: int, k: int)
    ensures k in LocalBreaks(breaks, start, dots) <==> 0 <= k < dots && start + k in breaks
  {
    if 0 <= k < dots && start + k in breaks {
      assert (start + k) - start == k;
    }
  }

  /** The current position within the set: 0..8 a dot, 9 the chevron or
      the tenth dot. */
  function Offset(d: Indicator): int
  {
    d.value - SetStart(d.value) - 1
  }

  /** Whether the current dot is a break dot. */
  predicate OnBreakDot(d: Indicator)
  {
    Offset(d) in LocalBreaks(d.breaks, SetStart(d.value), LayoutCounts(d).dots)
  }

  /** `setValue`: values below 1 are held at 1; a row break stays at 1 and
      pulses without end; otherwise the pulse counts the sets still to
      come, pulses without end on a break dot, and stops when neither. */
  function SetValue(d: Indicator, value: int): (r: Indicator)
    ensures r.maximum == d.maximum && r.breaks == d.breaks
    ensures r.value == if IsRowBreak(d) then 1 else Max(1, value)
    ensures r.value >= 1
  {
    var e := d.(value := Max(1, value));
    if IsRowBreak(e) then e.(value := 1, pulse := Pulse(true, Unlimited))
    else
      var sets := SetsLeft(e);
      if sets > 0 && !OnBreakDot(e) then e.(pulse := Pulse(true, Finite(sets)))
      else if OnBreakDot(e) then e.(pulse := Pulse(true, Unlimited))
      else e.(pulse := e.pulse.(running := false))
  }

  /** The pulse after `setValue`, case by case. */
  lemma SetValuePulse(d: Indicator, value: int)
    ensures var r := SetValue(d, value);
            (IsRowBreak(d) ==> r.pulse == Pulse(true, Unlimited)) &&
            (!IsRowBreak(d) && OnBreakDot(r) ==> r.pulse == Pulse(true, Unlimited)) &&
            (!IsRowBreak(d) && !OnBreakDot(r) && SetsLeft(r) > 0 ==> r.pulse == Pulse(true, Finite(SetsLeft(r)))) &&
            (!IsRowBreak(d) && !OnBreakDot(r) && SetsLeft(r) == 0 ==> !r.pulse.running && r.pulse.left == d.pulse.left)
  {
  }

  /** A break dot is one whose absolute index is among the breaks. */
  lemma OnBreakDotAt(d: Indicator)
    ensures OnBreakDot(d) <==>
              0 <= Offset(d) < LayoutCounts(d).dots && SetStart(d.value) + Offset(d) in d.breaks
  {
    LocalBreaksAt(d.breaks, SetStart(d.value), LayoutCounts(d).dots, Offset(d));
  }

  function SetBreaks(d: Indicator, indices: seq<int>): (r: Indicator)
    ensures forall i :: i in r.breaks <==> i in indices
    ensures r == d.(breaks := r.breaks)
  {
    d.(breaks := set i | i in indices)
  }

  /** The indices of the entries without images. */
  function BreakIndices(counts: seq<int>): set<int>
  {
    set i | 0 <= i < |counts| && counts[i] <= 0
  }

  /** `applyBreakVector`: every entry with no images is a break dot, and
      the row has one dot per entry. */
  function ApplyBreakVector(d: Indicator, counts: seq<int>): (r: Indicator)
    ensures forall i :: i in r.breaks <==> 0 <= i < |counts| && counts[i] <= 0
    ensures r.maximum == |counts|
  {
    SetMaximum(d.(breaks := BreakIndices(counts)), |counts|)
  }

  /** An empty vector makes the row a single break dot at 1. */
  lemma EmptyBreakVector(d: Indicator)
    ensures IsRowBreak(ApplyBreakVector(d, [])) && ApplyBreakVector(d, []).value == 1
    ensures !ApplyBreakVector(d, []).pulse.running
  {
  }

  // ---------------------------------------------------------------------
  // Colours
  // ---------------------------------------------------------------------

  datatype Colour = BreakOn | BreakOff | Current | Passed | Empty

  /** The dot drawn as current, if the position is on a dot. */
  function CurrentDot(d: Indicator): int
  {
    var l := LayoutCounts(d);
    if Offset(d) < l.dots then Offset(d) else -1
  }

  function ChevronFilled(d: Indicator): bool
  {
    LayoutCounts(d).chevron && Offset(d) == SetSize - 1
  }

  /** How many dots are drawn as passed. */
  function PassedDots(d: Indicator): int
  {
    var l := LayoutCounts(d);
    if ChevronFilled(d) then l.dots else Max(0, Min(Offset(d), l.dots - 1))
  }

  /** The colour of dot `i` of a normal row. */
  function DotColour(d: Indicator, i: int): (c: Colour)
    ensures (c == BreakOn || c == BreakOff) <==> i in LocalBreaks(d.breaks, LayoutCounts(d).start, LayoutCounts(d).dots)
  {
    var l := LayoutCounts(d);
    if i in LocalBreaks(d.breaks, l.start, l.dots) then
      (if i == CurrentDot(d) then BreakOn else BreakOff)
    else if i == CurrentDot(d) then Current
    else if i < PassedDots(d) then Passed
    else Empty
  }

  /** The single dot of a row break: lit while at the first value. */
  function RowBreakColour(d: Indicator): Colour
  {
    if d.value == 1 then BreakOn else BreakOff
  }

  /** Within the row's images, the position is either on a dot or, at the
      tenth image of a set that has more after it, on the chevron. */
  lemma PositionShown(d: Indicator)
    requires !IsRowBreak(d) && 1 <= d.value <= d.maximum
    ensures 0 <= Offset(d)
    ensures Offset(d) < LayoutCounts(d).dots || ChevronFilled(d)
    ensures ChevronFilled(d) <==> LayoutCounts(d).chevron && d.value == SetStart(d.value) + SetSize
  {
  }

  /** Colours on a normal row, for a position within the row's images:
      the dots before the current one are passed, those after are empty,
      the current dot is lit, and break dots are lit only when current. A
      filled chevron marks every dot passed. */
  lemma DotColours(d: Indicator, i: int)
    requires !IsRowBreak(d) && 1 <= d.value <= d.maximum
    requires 0 <= i < LayoutCounts(d).dots
    requires SetStart(d.value) + i !in d.breaks
    ensures ChevronFilled(d) ==> DotColour(d, i) == Passed
    ensures !ChevronFilled(d) ==>
              (i < Offset(d) ==> DotColour(d, i) == Passed) &&
              (i == Offset(d) ==> DotColour(d, i) == Current) &&
              (i > Offset(d) ==> DotColour(d, i) == Empty)
  {
    LocalBreaksAt(d.breaks, SetStart(d.value), LayoutCounts(d).dots, i);
    PositionShown(d);
  }

  /** A break dot is lit exactly when it is the current one. */
  lemma BreakDotColour(d: Indicator, i: int)
    requires 0 <= i < LayoutCounts(d).dots && SetStart(d.value) + i in d.breaks
    requires !IsRowBreak(d)
    ensures DotColour(d, i) == BreakOn <==> i == Offset(d)
  {
    LocalBreaksAt(d.breaks, SetStart(d.value), LayoutCounts(d).dots, i);
  }

  // ---------------------------------------------------------------------
  // Widths
  // ---------------------------------------------------------------------

  /** The drawing sizes: dot diameter, gap, chevron width (the dot
      diameter times its width scale, truncated) and the glow margin. */
  datatype Geometry = Geometry(dot: nat, spacing: nat, chevron: nat, glowPad: nat)

  /** The default sizes: 8 px dots 5 px apart, a chevron of `int(8 *
      0.65)` = 5 px, and a margin of `ceil(2 + 4 * 2 / 2)` = 6 px. */
  const DefaultGeometry: Geometry := Geometry(8, 5, 5, 6)

  /** `_row_width`: the dots and their gaps, then a gap and the chevron. */
  function RowWidth(g: Geometry, dots: nat, chevron: bool): (w: int)
    ensures dots > 0 ==> w == dots * g.dot + (dots - 1) * g.spacing + (if chevron then g.spacing + g.chevron else 0)
    ensures dots == 0 ==> w == (if chevron then g.spacing + g.chevron else 0)
  {
    var w := dots * g.dot + (if dots > 0 then (dots - 1) * g.spacing else 0);
    w + (if chevron then g.spacing + g.chevron else 0)
  }

  /** `_full_width`: the width kept for the widget whatever the progress,
      nine dots and a chevron with the margins. */
  function FullWidth(g: Geometry): (w: int)
    ensures w == 2 * g.glowPad + RowWidth(g, 9, true)
  {
    g.glowPad * 2 + (9 * g.dot + 8 * g.spacing) + (g.chevron + g.spacing)
  }

  /** Every row with a chevron or with at most nine dots fits the kept
      width; a row of ten dots without a chevron overflows it by the
      difference between a dot and the chevron (3 px at the default
      sizes). */
  lemma RowsFit(g: Geometry, dots: nat, chevron: bool)
    requires dots + (if chevron then 1 else 0) <= SetSize
    ensures dots <= 9 ==> 2 * g.glowPad + RowWidth(g, dots, chevron) <= FullWidth(g)
    ensures dots == 10 ==> 2 * g.glowPad + RowWidth(g, dots, chevron) == FullWidth(g) + g.dot - g.chevron
  {
    if dots <= 9 {
      assert dots * g.dot <= 9 * g.dot;
      if dots > 0 {
        assert (dots - 1) * g.spacing <= 8 * g.spacing;
      }
    }
  }

  lemma DefaultTenDotsOverflow()
    ensures 2 * DefaultGeometry.glowPad + RowWidth(DefaultGeometry, 10, false) == FullWidth(DefaultGeometry) + 3
  {
  }

  /** Any layout the widget computes has at most ten places. */
  lemma LayoutBounded(d: Indicator)
    requires d.value >= 1
    ensures LayoutCounts(d).dots + (if LayoutCounts(d).chevron then 1 else 0) <= SetSize
  {
  }
}
