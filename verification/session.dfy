/** The session player: the entry cursor, the half-second countdown, the
    cues it plays, navigation forwards and backwards, skipping, the end of
    the session and review mode with its close countdown.

    Time is counted in half-second ticks (`ticks` is twice the source's
    `time_seconds`). The Qt timer is `running` (the timer is active) and
    `blocked` (its signals are blocked); a timer event reaches the
    countdown only when it runs and is not blocked. Sounds are the cues
    appended to `played`. The shown frame itself is computed by the frame
    pipeline from the modifiers and is not part of this state. */
module Session {
  import opened Maybe
  import PyList
  import opened Schedule
  import Modifiers
  import Dots

  /** The sound files the player plays. */
  datatype Cue = NewEntryCue | LastImageCue | NewImageCue | HalfwayCue | FirstAlert | SecondAlert | ThirdAlert

  /** The `entry` dictionary (its constant "total" is the schedule's
      length) and the `new_entry` and `end_of_entry` flags. */
  datatype Cursor = Cursor(
    current: nat,     // the entry's index
    items: int,       // "amount of items": the entry's images left after this one
    time: int,        // the entry's seconds per image
    newEntry: bool,
    endOfEntry: bool)

  /** `time_seconds` in half seconds, and the countdown timer. */
  datatype Clock = Clock(ticks: int, running: bool, blocked: bool)

  /** `session_finished` and the close countdown. */
  datatype Review = Review(finished: bool, closeSeconds: int, closeRunning: bool, closed: bool)

  /** What is on screen besides the picture: the modifiers, whether the
      info line reads "Break", and the two dot rows. */
  datatype Screen = Screen(mods: Modifiers.Mods, infoBreak: bool, imageDots: Dots.Indicator, entryDots: Dots.Indicator)

  datatype State = State(
    schedule: seq<Entry>,
    playlist: seq<string>,
    totalImages: int,          // `total_scheduled_images`
    position: nat,             // `playlist_position`
    entry: Cursor,
    clock: Clock,
    review: Review,
    screen: Screen,
    played: seq<Cue>)

  /** What a slot hands back to Qt: the state it leaves, and whether an
      exception escaped from it part way through. */
  datatype Outcome = Returned(state: State) | Raised(state: State)

  /** What every state between two events satisfies: the schedule is not
      empty and the entry index points into it. */
  predicate Inv(s: State)
  {
    |s.schedule| > 0 && s.entry.current < |s.schedule|
  }

  const CloseDelay: int := 15

  /** Seconds to ticks. */
  function Ticks(seconds: int): int { 2 * seconds }

  /** The timer started or stopped, nothing else changed. */
  function SetRunning(s: State, running: bool): State
  {
    s.(clock := s.clock.(running := running))
  }

  /** The remaining time set, nothing else changed. */
  function SetTicks(s: State, ticks: int): State
  {
    s.(clock := s.clock.(ticks := ticks))
  }

  // ---------------------------------------------------------------------
  // Showing an image
  // ---------------------------------------------------------------------

  function Sound(s: State, c: Option<Cue>): (r: State)
    ensures r == s.(played := r.played)
    ensures c.None? ==> r.played == s.played
    ensures c.Some? ==> r.played == s.played + [c.value]
  {
    if c.Some? then s.(played := s.played + [c.value]) else s
  }

  /** The sound `display_image` plays: a new entry, then the entry's last
      image, then any image of an entry longer than ten seconds. */
  function DisplayCue(e: Cursor): (c: Option<Cue>)
    ensures c.Some? <==> e.newEntry || e.items == 0 || e.time > 10
    ensures e.newEntry ==> c == Some(NewEntryCue)
  {
    if e.newEntry then Some(NewEntryCue)
    else if e.items == 0 then Some(LastImageCue)
    else if e.time > 10 then Some(NewImageCue)
    else None
  }

  predicate OnMarker(s: State)
  {
    s.position < |s.playlist| && s.playlist[s.position] == BreakMarker
  }

  /** The sound of `display_image`, if asked for: at most one cue, and
      when there is one, the one `DisplayCue` picks. */
  function Heard(s: State, playSound: bool): (r: State)
    ensures r == s.(played := r.played)
    ensures |s.played| <= |r.played| <= |s.played| + 1 && r.played[..|s.played|] == s.played
    ensures |r.played| == |s.played| + 1 <==> playSound && DisplayCue(s.entry).Some?
    ensures |r.played| == |s.played| + 1 ==> r.played[|s.played|] == DisplayCue(s.entry).value
  {
    if playSound then Sound(s, DisplayCue(s.entry)) else s
  }

  /** `display_image`. Past the end of the playlist the timer stops;
      otherwise a break marker sets the break flags, forces the images
      left to 0 and turns the image dots into one break dot, and any other
      item clears the flags and sets the image dots to the entry's image
      count and the 1-based image number. */
  function DisplayImage(s: State, playSound: bool): (r: State)
    requires s.entry.current < |s.schedule|
    ensures r == Heard(s, playSound).(clock := r.clock, entry := r.entry, screen := r.screen)
    ensures r.clock == s.clock.(running := s.clock.running && s.position < |s.playlist|)
    ensures r.entry == s.entry.(items := if OnMarker(s) then 0 else s.entry.items)
    ensures r.screen.entryDots == s.screen.entryDots
    ensures s.position < |s.playlist| ==> r.screen.infoBreak == OnMarker(s) &&
                                          r.screen.mods == Modifiers.MarkBreak(s.screen.mods, OnMarker(s))
    ensures s.position >= |s.playlist| ==> r.screen == s.screen
  {
    Show(Heard(s, playSound))
  }

  /** The item at the position on screen, or the timer stopped past the
      end. */
  function Show(s: State): (r: State)
    requires s.entry.current < |s.schedule|
    ensures r == s.(clock := r.clock, entry := r.entry, screen := r.screen)
    ensures r.clock == s.clock.(running := s.clock.running && s.position < |s.playlist|)
    ensures r.entry == s.entry.(items := if OnMarker(s) then 0 else s.entry.items)
    ensures r.screen.entryDots == s.screen.entryDots
    ensures s.position < |s.playlist| ==> r.screen.infoBreak == OnMarker(s) &&
                                          r.screen.mods == Modifiers.MarkBreak(s.screen.mods, OnMarker(s))
    ensures s.position >= |s.playlist| ==> r.screen == s.screen
  {
    if s.position >= |s.playlist| then SetRunning(s, false)
    else if s.playlist[s.position] == BreakMarker then ShowBreak(s)
    else ShowImage(s)
  }

  /** A break marker on screen. */
  function ShowBreak(s: State): (r: State)
    ensures r == s.(entry := s.entry.(items := 0), screen := r.screen)
    ensures r.screen.mods == Modifiers.MarkBreak(s.screen.mods, true) && r.screen.infoBreak
    ensures r.screen.entryDots == s.screen.entryDots
    ensures Dots.IsRowBreak(r.screen.imageDots) && r.screen.imageDots.value == 1
  {
    var v := s.screen;
    s.(entry := s.entry.(items := 0),
       screen := v.(mods := Modifiers.MarkBreak(v.mods, true), infoBreak := true,
                    imageDots := Dots.SetValue(Dots.SetMaximum(v.imageDots, 0), 1)))
  }

  /** An image of the current entry on screen: the image dots count the
      entry's images and mark the one shown, counting from 1. */
  function ShowImage(s: State): (r: State)
    requires s.entry.current < |s.schedule|
    ensures r == s.(screen := r.screen)
    ensures r.screen.mods == Modifiers.MarkBreak(s.screen.mods, false) && !r.screen.infoBreak
    ensures r.screen.entryDots == s.screen.entryDots
    ensures var n := s.schedule[s.entry.current].images;
            r.screen.imageDots.maximum == Dots.Max(0, n) &&
            r.screen.imageDots.value == (if n <= 0 then 1 else Dots.Max(1, n - s.entry.items))
  {
    var n := s.schedule[s.entry.current].images;
    var v := s.screen;
    s.(screen := v.(mods := Modifiers.MarkBreak(v.mods, false), infoBreak := false,
                    imageDots := Dots.SetValue(Dots.SetMaximum(v.imageDots, n), n - s.entry.items)))
  }

  /** A timer restart after the work: `timer.start` when the timer was
      running before. */
  function Resume(s: State, wasRunning: bool): (r: State)
    ensures r == s.(clock := r.clock)
    ensures r.clock == s.clock.(running := wasRunning || s.clock.running)
  {
    if wasRunning then SetRunning(s, true) else s
  }

  // ---------------------------------------------------------------------
  // Entries and the end of the session
  // ---------------------------------------------------------------------

  /** `load_entry`, with the intended `end_session`: past the last entry
      the session ends; otherwise the
      entry's time is loaded, the timer runs if asked to, the images left
      are one fewer than the entry's count, the entry dots move to the
      entry, and the first image is shown with its sound. */
  function LoadEntry(s: State, resume: bool): (r: State)
    requires s.entry.current <= |s.schedule|
    ensures r.schedule == s.schedule && r.playlist == s.playlist && r.totalImages == s.totalImages
    ensures s.entry.current == |s.schedule| ==> r.review.finished
  {
    if s.entry.current >= |s.schedule| then EndSession(s)
    else
      var e := s.schedule[s.entry.current];
      DisplayImage(s.(entry := s.entry.(time := e.time, items := e.images - 1),
                      clock := s.clock.(ticks := Ticks(e.time), running := resume),
                      screen := s.screen.(entryDots := Dots.SetValue(Dots.SetMaximum(s.screen.entryDots, |s.schedule|),
                                                                     s.entry.current + 1))), true)
  }

  /** The state `end_session` sets before its dot-indicator calls: the
      session is finished, the countdown stopped and its signals blocked,
      the close delay 15 seconds, the cursor on the last entry with no
      images left, the info line no longer "Break", and the position on the
      first slot after the scheduled images. */
  function Finish(s: State): (r: State)
    ensures r.review == s.review.(finished := true, closeSeconds := CloseDelay)
    ensures r.clock == s.clock.(running := false, blocked := true)
    ensures r.entry == s.entry.(current := Dots.Max(0, |s.schedule| - 1), items := 0)
    ensures r.position == Dots.Max(0, s.totalImages)
    ensures r == s.(review := r.review, clock := r.clock, entry := r.entry, position := r.position,
                    screen := s.screen.(infoBreak := false))
  {
    s.(review := s.review.(finished := true, closeSeconds := CloseDelay),
       clock := s.clock.(running := false, blocked := true),
       entry := s.entry.(current := Dots.Max(0, |s.schedule| - 1), items := 0),
       position := Dots.Max(0, s.totalImages),
       screen := s.screen.(infoBreak := false))
  }

  /** `end_session` as written: the indicator it asks for its `maximum()`
      is the dot widget, which has no such method, so an AttributeError
      escapes after `Finish`, before the progress bars are filled and
      before the close timer starts. */
  function EndSessionAsWritten(s: State): (r: Outcome)
    ensures r.Raised? && r.state == Finish(s)
    ensures r.state.review.closeRunning == s.review.closeRunning
  {
    Raised(Finish(s))
  }

  /** `end_session` as intended: both dot rows filled to their maximum,
      and the close countdown started. */
  function EndSession(s: State): (r: State)
    ensures r == Finish(s).(review := r.review, screen := r.screen)
    ensures r.review == Finish(s).review.(closeRunning := true)
    ensures r.screen.mods == s.screen.mods && !r.screen.infoBreak
    ensures r.screen.imageDots.maximum == s.screen.imageDots.maximum
    ensures r.screen.entryDots.maximum == s.screen.entryDots.maximum
    ensures r.screen.imageDots.maximum >= 1 ==> r.screen.imageDots.value == r.screen.imageDots.maximum
    ensures r.screen.entryDots.maximum >= 1 ==> r.screen.entryDots.value == r.screen.entryDots.maximum
  {
    var f := Finish(s);
    f.(review := f.review.(closeRunning := true),
       screen := f.screen.(imageDots := Dots.SetValue(s.screen.imageDots, s.screen.imageDots.maximum),
                           entryDots := Dots.SetValue(s.screen.entryDots, s.screen.entryDots.maximum)))
  }

  // ---------------------------------------------------------------------
  // Forwards and backwards
  // ---------------------------------------------------------------------

  /** The state `load_next_image` hands to `load_entry` at the end of an
      entry: paused, on the next entry and the next position, the countdown
      reset to the finished entry's time. */
  function NextEntryState(s: State): State
  {
    SetRunning(s, false).(entry := s.entry.(current := s.entry.current + 1, newEntry := true),
                          position := s.position + 1,
                          clock := s.clock.(running := false, ticks := Ticks(s.entry.time)))
  }

  /** `load_next_image`, with the intended `end_session`. In review mode
      the position moves on by one up to the slot after the scheduled
      images. Otherwise, at the end of an entry the next entry is loaded
      (or the session ends), and within an entry the next image is shown
      with the entry's full time; the timer is restarted afterwards if it
      was running. */
  function LoadNextImage(s: State): (r: State)
    requires Inv(s)
  {
    var was := s.clock.running;
    var s0 := SetRunning(s, false);
    if s.review.finished then
      var s1 := CancelClose(s0).(clock := s0.clock.(blocked := true));
      if s1.position == s1.totalImages then s1
      else DisplayImage(s1.(position := s1.position + 1), true)
    else if s.entry.items == 0 then Resume(LoadEntry(NextEntryState(s), was), was)
    else
      var items := s.entry.items - 1;
      var s2 := s.(entry := s.entry.(items := items, newEntry := false, endOfEntry := s.entry.endOfEntry || items == 0),
                   position := s.position + 1,
                   clock := s.clock.(ticks := Ticks(s.entry.time), running := was));
      Resume(DisplayImage(s2, true), was)
  }

  /** `load_entry` as written: past the last entry the `end_session` it
      calls raises, so the outcome is `Raised`; inside the schedule it is
      the intended `LoadEntry`. */
  function LoadEntryAsWritten(s: State, resume: bool): (r: Outcome)
    requires s.entry.current <= |s.schedule|
  {
    if s.entry.current >= |s.schedule| then EndSessionAsWritten(s) else Returned(LoadEntry(s, resume))
  }

  /** `load_next_image` as written: at the end of an entry the exception
      of `end_session` leaves before the timer is restarted; every other
      branch is the intended `LoadNextImage`. */
  function LoadNextImageAsWritten(s: State): (r: Outcome)
    requires Inv(s)
  {
    if !s.review.finished && s.entry.items == 0 then
      match LoadEntryAsWritten(NextEntryState(s), s.clock.running)
      case Raised(x) => Raised(x)
      case Returned(x) => Returned(Resume(x, s.clock.running))
    else Returned(LoadNextImage(s))
  }

  /** `previous_playlist_position`. In review mode the position moves back
      by one, stopping at 0. At the first image the entry is reloaded
      where it is. At the first image of an entry, or on a break, the
      cursor moves to the previous entry's last image; otherwise to the
      previous image of the same entry. The source's branch for an entry
      index past the last entry cannot be taken under `Inv`. */
  function Previous(s: State): (r: State)
    requires Inv(s)
  {
    var was := s.clock.running;
    var e := s.entry;
    if s.review.finished then
      var s1 := CancelClose(SetRunning(s, false));
      DisplayImage(s1.(position := if s1.position == 0 then 0 else s1.position - 1), true)
    else if s.position == 0 || (e.current == 0 && e.items == s.schedule[0].images - 1) then
      LoadEntry(s.(clock := s.clock.(ticks := Ticks(e.time), running := was)), was)
    else if e.items + 1 == s.schedule[e.current].images || s.screen.infoBreak then
      var c := if e.current != 0 then e.current - 1 else e.current;
      var t := s.schedule[c].time;
      DisplayImage(s.(position := s.position - 1,
                      entry := e.(current := c, time := t, items := 0, newEntry := true),
                      clock := s.clock.(ticks := Ticks(t), running := was)), true)
    else
      Resume(DisplayImage(s.(position := s.position - 1,
                             entry := e.(items := e.items + 1, newEntry := false),
                             clock := s.clock.(ticks := Ticks(e.time), running := false)), true), was)
  }

  // ---------------------------------------------------------------------
  // Skipping
  // ---------------------------------------------------------------------

  /** The order `random.shuffle` then `pop` visits the later positions
      in: each of them exactly once. */
  predicate PopOrder(s: State, order: seq<nat>)
  {
    (forall k :: 0 <= k < |order| ==> s.position < order[k] < |s.playlist|) &&
    (forall k, l :: 0 <= k < l < |order| ==> order[k] != order[l]) &&
    |order| == Dots.Max(0, |s.playlist| - s.position - 1)
  }

  /** The first index in `order` whose item is not `name`. */
  function FirstOther(xs: seq<string>, order: seq<nat>, name: string): (r: Option<nat>)
    requires forall k :: 0 <= k < |order| ==> order[k] < |xs|
    ensures r.Some? ==> r.value in order && xs[r.value] != name
    ensures r.None? <==> forall k :: 0 <= k < |order| ==> xs[order[k]] == name
    decreases |order|
  {
    if order == [] then None
    else if xs[order[0]] != name then Some(order[0])
    else FirstOther(xs, order[1..], name)
  }

  /** `skip_image`, with the name of the break item as a parameter: on a
      break nothing happens; otherwise the current item trades places with
      the first later item, in pop order, that is not a break, and is shown
      with the entry's time restarted. Past the end of the playlist the
      lookup raises IndexError before anything changes. */
  function SkipWith(s: State, order: seq<nat>, breakName: string): (r: Outcome)
    requires Inv(s) && PopOrder(s, order)
  {
    if s.position >= |s.playlist| then Raised(s)
    else if s.playlist[s.position] == breakName then Returned(s)
    else match FirstOther(s.playlist, order, breakName)
      case None => Returned(s)
      case Some(j) => Returned(RestartTimer(DisplayImage(s.(playlist := PyList.Swap(s.playlist, s.position, j)), true)))
  }

  /** `skip_image` as written compares with the bare file name
      "break.png", which no playlist item equals. */
  function SkipAsWritten(s: State, order: seq<nat>): (r: Outcome)
    requires Inv(s) && PopOrder(s, order)
  {
    SkipWith(s, order, "break.png")
  }

  /** `skip_image` as intended: break markers stay where they are. */
  function Skip(s: State, order: seq<nat>): (r: Outcome)
    requires Inv(s) && PopOrder(s, order)
  {
    SkipWith(s, order, BreakMarker)
  }

  // ---------------------------------------------------------------------
  // The countdown
  // ---------------------------------------------------------------------

  /** The alert for the last ten seconds: at 10 s, 5 s and 0.5 s. */
  function AlertAt(ticks: int): (c: Option<Cue>)
    ensures c.Some? <==> ticks == 20 || ticks == 10 || ticks == 1
  {
    if ticks == 20 then Some(FirstAlert)
    else if ticks == 10 then Some(SecondAlert)
    else if ticks == 1 then Some(ThirdAlert)
    else None
  }

  /** The cue for the first half of `countdown`: halfway through an entry
      of 30 seconds or more, or an alert in the last ten seconds unless an
      entry has just started or is about to end. */
  function CountdownCue(s: State): (c: Option<Cue>)
  {
    if s.entry.time >= 30 && s.clock.ticks == Ticks(s.entry.time / 2) then Some(HalfwayCue)
    else if s.clock.ticks <= 20 && !s.entry.newEntry && !s.entry.endOfEntry then AlertAt(s.clock.ticks)
    else None
  }

  /** The end of `countdown`: at zero the next image is loaded and the time
      is left alone, otherwise half a second is taken off. */
  function CountdownEnd(s: State): (r: State)
    requires Inv(s)
  {
    if s.clock.ticks == 0 then LoadNextImage(s) else SetTicks(s, s.clock.ticks - 1)
  }

  /** The first half of `countdown`: the halfway cue for entries of 30
      seconds or more; in the last ten seconds either an alert or, just
      after an entry started or before it ends, the clearing of both
      flags, and on a break the end of the break's grayscale. In the last
      ten seconds the current item is looked up, which raises IndexError
      past the end of the playlist. */
  function CountdownFront(s: State): (r: Outcome)
    ensures r.state.schedule == s.schedule && r.state.entry.current == s.entry.current
  {
    var s1 := Sound(s, CountdownCue(s));
    if s.clock.ticks <= 20 then
      var s2 := if !s.entry.newEntry && !s.entry.endOfEntry then s1
                else s1.(entry := s1.entry.(newEntry := false, endOfEntry := false));
      if s2.position >= |s2.playlist| then Raised(s2)
      else if s2.playlist[s2.position] == BreakMarker then
        Returned(s2.(screen := s2.screen.(mods := Modifiers.EndBreakGrayscale(s2.screen.mods))))
      else Returned(s2)
    else Returned(s1)
  }

  /** `countdown`, with the intended `end_session`: its first half, then
      `CountdownEnd`. */
  function Countdown(s: State): (r: Outcome)
    requires Inv(s)
  {
    match CountdownFront(s)
    case Raised(x) => Raised(x)
    case Returned(x) => Returned(CountdownEnd(x))
  }

  /** One timeout of the half-second timer, with the intended
      `end_session`. */
  function Tick(s: State): (r: Outcome)
    requires Inv(s)
    ensures !s.clock.running || s.clock.blocked ==> r == Returned(s)
  {
    if !s.clock.running || s.clock.blocked then Returned(s) else Countdown(s)
  }

  /** `countdown` as written: at zero the next image is loaded by the
      as-written `load_next_image`, whose exception at the end of the
      schedule escapes the timer slot. */
  function CountdownAsWritten(s: State): (r: Outcome)
    requires Inv(s)
  {
    match CountdownFront(s)
    case Raised(x) => Raised(x)
    case Returned(x) =>
      if x.clock.ticks == 0 then LoadNextImageAsWritten(x) else Returned(CountdownEnd(x))
  }

  /** One timeout of the half-second timer as written. */
  function TickAsWritten(s: State): (r: Outcome)
    requires Inv(s)
  {
    if !s.clock.running || s.clock.blocked then Returned(s) else CountdownAsWritten(s)
  }

  // ---------------------------------------------------------------------
  // The timer keys and the close countdown
  // ---------------------------------------------------------------------

  /** `pause`: toggles the timer, except in review mode. */
  function Pause(s: State): (r: State)
    ensures r == s.(clock := r.clock)
    ensures r.clock == s.clock.(running := if s.review.finished then s.clock.running else !s.clock.running)
  {
    if s.review.finished then s else SetRunning(s, !s.clock.running)
  }

  /** `add_30_seconds` and `add_60_seconds`: no clamp, and nothing in
      review mode. */
  function AddSeconds(s: State, seconds: int): (r: State)
    ensures r == s.(clock := r.clock)
    ensures r.clock == s.clock.(ticks := if s.review.finished then s.clock.ticks else s.clock.ticks + Ticks(seconds))
  {
    if s.review.finished then s else SetTicks(s, s.clock.ticks + Ticks(seconds))
  }

  /** `restart_timer`: the entry's full time again, except in review mode. */
  function RestartTimer(s: State): (r: State)
    requires s.entry.current < |s.schedule|
    ensures r == s.(clock := r.clock)
    ensures !s.review.finished ==> r.clock == s.clock.(ticks := Ticks(s.schedule[s.entry.current].time))
    ensures s.review.finished ==> r == s
  {
    if s.review.finished then s else SetTicks(s, Ticks(s.schedule[s.entry.current].time))
  }

  /** `close_countdown`: one second off while the close timer runs, and the
      window closes when it reaches zero. */
  function CloseCountdown(s: State): (r: State)
    ensures r == s.(review := r.review)
    ensures r.review.finished == s.review.finished
    ensures !s.review.closeRunning ==> r == s
    ensures s.review.closeRunning ==> r.review.closeSeconds == s.review.closeSeconds - 1
    ensures s.review.closeRunning ==> (r.review.closeRunning <==> r.review.closeSeconds > 0)
    ensures s.review.closeRunning ==> (r.review.closed <==> s.review.closed || r.review.closeSeconds <= 0)
  {
    var v := s.review;
    if !v.closeRunning then s
    else if v.closeSeconds - 1 <= 0 then s.(review := v.(closeSeconds := v.closeSeconds - 1, closeRunning := false, closed := true))
    else s.(review := v.(closeSeconds := v.closeSeconds - 1))
  }

  /** `cancel_close_countdown`. */
  function CancelClose(s: State): (r: State)
    ensures r == s.(review := s.review.(closeRunning := false))
  {
    if s.review.closeRunning then s.(review := s.review.(closeRunning := false)) else s
  }

  /** A key or mouse press seen by the event filter: in review mode it
      cancels a running close countdown. */
  function Interact(s: State): (r: State)
    ensures r == s.(review := s.review.(closeRunning := s.review.closeRunning && !s.review.finished))
  {
    if s.review.finished && s.review.closeRunning then CancelClose(s) else s
  }

  // ---------------------------------------------------------------------
  // The image-modification keys
  // ---------------------------------------------------------------------

  /** Flips, grayscale, its mode and reset redraw silently; brightness,
      contrast, threshold and edge redraw with the image sound. */
  function KeySound(k: Modifiers.Key): bool
  {
    !(k.HFlipKey? || k.VFlipKey? || k.GrayKey? || k.ModeKey? || k.ResetKey?)
  }

  /** A modification key: the modifiers change and the image is redrawn,
      which also re-derives the break flags from the current item. */
  function ModifierKey(s: State, k: Modifiers.Key): (r: State)
    requires s.entry.current < |s.schedule|
  {
    DisplayImage(s.(screen := s.screen.(mods := Modifiers.Press(s.screen.mods, k))), KeySound(k))
  }

  // ---------------------------------------------------------------------
  // The start
  // ---------------------------------------------------------------------

  /** The indices of the entries with no images, in order. */
  function ZeroEntries(schedule: seq<Entry>, from: nat): (r: seq<int>)
    requires from <= |schedule|
    ensures forall k :: 0 <= k < |r| ==> from <= r[k] < |schedule| && schedule[r[k]].images == 0
    decreases |schedule| - from
  {
    if from == |schedule| then []
    else if schedule[from].images == 0 then [from] + ZeroEntries(schedule, from + 1)
    else ZeroEntries(schedule, from + 1)
  }

  /** The constructor: the timer runs, the first entry's count and time are
      taken, the modifiers are the defaults, the entry dots mark the break
      entries and start at the first, and the first entry is loaded. */
  function Start(schedule: seq<Entry>, playlist: seq<string>, totalImages: int): (r: State)
    requires |schedule| > 0
  {
    var e := schedule[0];
    var entryDots := Dots.SetValue(Dots.SetMaximum(Dots.SetBreaks(Dots.Initial, ZeroEntries(schedule, 0)), |schedule|), 1);
    var s := State(schedule, playlist, totalImages, 0,
                   Cursor(0, e.images, e.time, true, !(e.images > 1)),
                   Clock(Ticks(e.time), true, false),
                   Review(false, CloseDelay, false, false),
                   Screen(Modifiers.Defaults, false, Dots.Initial, entryDots),
                   []);
    LoadEntry(s, true)
  }
}
