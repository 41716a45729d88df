/** What the session player guarantees, stated over the transitions of
    `Session`. */
module SessionFacts {
  import opened Maybe
  import opened Schedule
  import Modifiers
  import Dots
  import opened Session

  // ---------------------------------------------------------------------
  // Loading an entry
  // ---------------------------------------------------------------------

  /** Loading an entry inside the schedule: the entry's time, images left
      one fewer than its count (0 on a marker), the position kept, the
      timer running as asked unless the playlist is exhausted, and the
      new-entry sound when the entry is new. */
  lemma LoadEntryFacts(s: State, resume: bool)
    requires s.entry.current < |s.schedule|
    ensures var r := LoadEntry(s, resume); var e := s.schedule[s.entry.current];
            r.position == s.position && r.review == s.review &&
            r.entry == s.entry.(time := e.time, items := if OnMarker(s) then 0 else e.images - 1) &&
            r.clock == s.clock.(ticks := Ticks(e.time), running := resume && s.position < |s.playlist|) &&
            (s.entry.newEntry ==> r.played == s.played + [NewEntryCue]) &&
            r.screen.entryDots.maximum == |s.schedule| &&
            r.screen.entryDots.value == s.entry.current + 1
  {
    var e := s.schedule[s.entry.current];
    var s1 := s.(entry := s.entry.(time := e.time, items := e.images - 1),
                 clock := s.clock.(ticks := Ticks(e.time), running := resume),
                 screen := s.screen.(entryDots := Dots.SetValue(Dots.SetMaximum(s.screen.entryDots, |s.schedule|),
                                                                s.entry.current + 1)));
    assert OnMarker(s1) == OnMarker(s);
  }

  /** Past the last entry, loading ends the session with the intended
      `end_session`. */
  lemma LoadEntryEnds(s: State, resume: bool)
    requires s.entry.current == |s.schedule|
    ensures LoadEntry(s, resume) == EndSession(s)
  {
  }

  /** `load_entry` as written agrees with the intended one inside the
      schedule; past the last entry it raises with `Finish`'s state: the
      session finished and the timer stopped, but the close countdown left
      as it was and the dot rows not filled. */
  lemma LoadEntryAsWrittenCases(s: State, resume: bool)
    requires s.entry.current <= |s.schedule|
    ensures LoadEntryAsWritten(s, resume).Raised? <==> s.entry.current == |s.schedule|
    ensures s.entry.current < |s.schedule| ==> LoadEntryAsWritten(s, resume) == Returned(LoadEntry(s, resume))
    ensures s.entry.current == |s.schedule| ==>
              var r := LoadEntryAsWritten(s, resume).state;
              r == Finish(s) && r.review.finished && r.review.closeRunning == s.review.closeRunning &&
              !r.clock.running && r.screen.imageDots == s.screen.imageDots && r.screen.entryDots == s.screen.entryDots
  {
  }

  // ---------------------------------------------------------------------
  // The invariant
  // ---------------------------------------------------------------------

  lemma StartKeepsInv(schedule: seq<Entry>, playlist: seq<string>, totalImages: int)
    requires |schedule| > 0
    ensures Inv(Start(schedule, playlist, totalImages))
  {
    var e := schedule[0];
    var entryDots := Dots.SetValue(Dots.SetMaximum(Dots.SetBreaks(Dots.Initial, ZeroEntries(schedule, 0)), |schedule|), 1);
    var s := State(schedule, playlist, totalImages, 0,
                   Cursor(0, e.images, e.time, true, !(e.images > 1)),
                   Clock(Ticks(e.time), true, false),
                   Review(false, CloseDelay, false, false),
                   Screen(Modifiers.Defaults, false, Dots.Initial, entryDots),
                   []);
    LoadEntryFacts(s, true);
  }

  lemma LoadNextImageKeepsInv(s: State)
    requires Inv(s)
    ensures Inv(LoadNextImage(s))
  {
    if !s.review.finished && s.entry.items == 0 {
      var s2 := SetRunning(s, false).(entry := s.entry.(current := s.entry.current + 1, newEntry := true),
                                      position := s.position + 1,
                                      clock := s.clock.(running := false, ticks := Ticks(s.entry.time)));
      if s2.entry.current < |s.schedule| {
        LoadEntryFacts(s2, s.clock.running);
      }
    }
  }

  lemma PreviousKeepsInv(s: State)
    requires Inv(s)
    ensures Inv(Previous(s))
  {
    if !s.review.finished && (s.position == 0 || (s.entry.current == 0 && s.entry.items == s.schedule[0].images - 1)) {
      LoadEntryFacts(s.(clock := s.clock.(ticks := Ticks(s.entry.time), running := s.clock.running)), s.clock.running);
    }
  }

  lemma TickKeepsInv(s: State)
    requires Inv(s)
    ensures Inv(Tick(s).state)
  {
    if s.clock.running && !s.clock.blocked {
      var s1 := Sound(s, CountdownCue(s));
      var s2 := if s.clock.ticks <= 20 && (s.entry.newEntry || s.entry.endOfEntry)
                then s1.(entry := s1.entry.(newEntry := false, endOfEntry := false)) else s1;
      var s3 := if s.clock.ticks <= 20 && OnMarker(s2)
                then s2.(screen := s2.screen.(mods := Modifiers.EndBreakGrayscale(s2.screen.mods))) else s2;
      if s.clock.ticks == 0 {
        LoadNextImageKeepsInv(s3);
      }
    }
  }

  lemma SkipKeepsInv(s: State, order: seq<nat>, name: string)
    requires Inv(s) && PopOrder(s, order)
    ensures Inv(SkipWith(s, order, name).state)
  {
  }

  lemma KeysKeepInv(s: State, k: Modifiers.Key, seconds: int)
    requires Inv(s)
    ensures Inv(ModifierKey(s, k)) && Inv(Pause(s)) && Inv(AddSeconds(s, seconds)) && Inv(RestartTimer(s))
    ensures Inv(CloseCountdown(s)) && Inv(Interact(s))
  {
  }

  // ---------------------------------------------------------------------
  // Moving forwards
  // ---------------------------------------------------------------------

  /** Within an entry the next image comes with the entry's full time, one
      image fewer left (0 on a marker), the same entry and the same timer
      state. */
  lemma AdvanceWithinEntry(s: State)
    requires Inv(s) && !s.review.finished && s.entry.items != 0
    ensures var r := LoadNextImage(s);
            r.position == s.position + 1 && r.entry.current == s.entry.current &&
            r.entry.items == (if OnMarker(r) then 0 else s.entry.items - 1) &&
            r.clock.ticks == Ticks(s.entry.time) && r.clock.running == s.clock.running &&
            !r.entry.newEntry && r.entry.endOfEntry == (s.entry.endOfEntry || s.entry.items == 1) &&
            r.review == s.review && r.playlist == s.playlist &&
            (r.position < |r.playlist| ==> r.screen.infoBreak == OnMarker(r))
  {
  }

  /** At the end of an entry that is not the last, the next entry starts:
      its time, its count less one (0 on a marker), the new-entry sound. */
  lemma AdvanceToNextEntry(s: State)
    requires Inv(s) && !s.review.finished && s.entry.items == 0 && s.entry.current + 1 < |s.schedule|
    ensures var r := LoadNextImage(s); var e := s.schedule[s.entry.current + 1];
            r.position == s.position + 1 && r.entry.current == s.entry.current + 1 &&
            r.entry.time == e.time && r.entry.items == (if OnMarker(r) then 0 else e.images - 1) &&
            r.clock.ticks == Ticks(e.time) && r.clock.running == s.clock.running &&
            r.entry.newEntry && r.played == s.played + [NewEntryCue] && r.review == s.review
  {
    var s2 := NextEntryState(s);
    LoadEntryFacts(s2, s.clock.running);
  }

  /** After the last image of the last entry the session ends, with the
      intended `end_session`: review mode, the close countdown running
      from 15, the position on the slot after the scheduled images, and a
      countdown that no longer fires. */
  lemma AdvancePastLastEntry(s: State)
    requires Inv(s) && !s.review.finished && s.entry.items == 0 && s.entry.current + 1 == |s.schedule|
    ensures var r := LoadNextImage(s);
            r.review.finished && r.review.closeRunning && r.review.closeSeconds == CloseDelay &&
            r.clock.blocked && r.position == Dots.Max(0, s.totalImages) &&
            r.entry.current == s.entry.current && r.entry.items == 0 &&
            r.clock.ticks == Ticks(s.entry.time) && Inv(r) && Tick(r) == Returned(r)
  {
  }

  /** As written, `load_next_image` differs from the intended one only
      after the last image of the last entry, where it raises. */
  lemma LoadNextImageAsWrittenAgrees(s: State)
    requires Inv(s)
    ensures LoadNextImageAsWritten(s).Raised? <==>
              !s.review.finished && s.entry.items == 0 && s.entry.current + 1 == |s.schedule|
    ensures LoadNextImageAsWritten(s).Returned? ==> LoadNextImageAsWritten(s).state == LoadNextImage(s)
  {
    if !s.review.finished && s.entry.items == 0 {
      LoadEntryAsWrittenCases(NextEntryState(s), s.clock.running);
    }
  }

  /** After the last image of the last entry, as written: review mode and
      a countdown that no longer fires, but the exception leaves before
      the close countdown starts, the dot rows are filled and the timer is
      restarted, and no sound is played. */
  lemma AdvancePastLastAsWritten(s: State)
    requires Inv(s) && !s.review.finished && s.entry.items == 0 && s.entry.current + 1 == |s.schedule|
    ensures LoadNextImageAsWritten(s).Raised?
    ensures var r := LoadNextImageAsWritten(s).state;
            r.review.finished && r.review.closeRunning == s.review.closeRunning &&
            r.review.closeSeconds == CloseDelay && !r.clock.running && r.clock.blocked &&
            r.position == Dots.Max(0, s.totalImages) && r.entry.current == s.entry.current && r.entry.items == 0 &&
            r.screen.imageDots == s.screen.imageDots && r.screen.entryDots == s.screen.entryDots &&
            r.played == s.played && Inv(r) && Tick(r) == Returned(r)
  {
    LoadEntryAsWrittenCases(NextEntryState(s), s.clock.running);
  }

  // ---------------------------------------------------------------------
  // Forwards then backwards
  // ---------------------------------------------------------------------

  /** The three ways back outside review mode: at the very first image the
      entry is reloaded in place; at the first image of an entry, or on a
      break, the cursor moves to the last image of the previous entry
      (entry 0 stays entry 0); otherwise it moves to the previous image of
      the same entry. Each restores the time of the entry it lands in. */
  lemma PreviousCases(s: State)
    requires Inv(s) && !s.review.finished
    ensures var r := Previous(s);
            r.playlist == s.playlist && r.schedule == s.schedule && r.review == s.review
    ensures s.position == 0 || (s.entry.current == 0 && s.entry.items == s.schedule[0].images - 1) ==>
            Previous(s).position == s.position && Previous(s).entry.current == s.entry.current &&
            Previous(s).entry.items == (if OnMarker(s) then 0 else s.schedule[s.entry.current].images - 1) &&
            Previous(s).clock.ticks == Ticks(s.schedule[s.entry.current].time)
    ensures !(s.position == 0 || (s.entry.current == 0 && s.entry.items == s.schedule[0].images - 1)) &&
            (s.entry.items + 1 == s.schedule[s.entry.current].images || s.screen.infoBreak) ==>
            Previous(s).position == s.position - 1 && Previous(s).entry.items == 0 &&
            Previous(s).entry.current == (if s.entry.current != 0 then s.entry.current - 1 else 0) &&
            Previous(s).entry.newEntry &&
            Previous(s).clock.ticks == Ticks(s.schedule[Previous(s).entry.current].time)
    ensures !(s.position == 0 || (s.entry.current == 0 && s.entry.items == s.schedule[0].images - 1)) &&
            !(s.entry.items + 1 == s.schedule[s.entry.current].images || s.screen.infoBreak) ==>
            Previous(s).position == s.position - 1 && Previous(s).entry.current == s.entry.current &&
            Previous(s).entry.items == (if OnMarker(Previous(s)) then 0 else s.entry.items + 1) &&
            !Previous(s).entry.newEntry && Previous(s).clock.ticks == Ticks(s.entry.time) &&
            Previous(s).clock.running == s.clock.running
  {
    if s.position == 0 || (s.entry.current == 0 && s.entry.items == s.schedule[0].images - 1) {
      LoadEntryFacts(s.(clock := s.clock.(ticks := Ticks(s.entry.time), running := s.clock.running)), s.clock.running);
    }
  }

  /** Outside review mode, one image forward and one back within an entry
      comes back to the same position, entry and images left, with the
      timer as it was. */
  lemma RoundTripWithinEntry(s: State)
    requires Inv(s) && !s.review.finished && s.position + 1 < |s.playlist|
    requires s.entry.items != 0 && s.entry.items < s.schedule[s.entry.current].images
    requires s.playlist[s.position] != BreakMarker && s.playlist[s.position + 1] != BreakMarker
    ensures var r := Previous(LoadNextImage(s));
            r.position == s.position && r.entry.current == s.entry.current &&
            r.entry.items == s.entry.items && r.clock.running == s.clock.running
  {
    AdvanceWithinEntry(s);
  }

  /** Forward across the end of an entry and back again: the previous
      entry's last image, whether the next entry begins with an image, a
      misplaced marker, or a break. */
  lemma RoundTripAcrossEntries(s: State)
    requires Inv(s) && !s.review.finished && s.position + 1 < |s.playlist|
    requires s.entry.items == 0 && s.entry.current + 1 < |s.schedule|
    ensures var r := Previous(LoadNextImage(s));
            r.position == s.position && r.entry.current == s.entry.current &&
            r.entry.items == 0 && r.clock.running == s.clock.running
  {
    AdvanceToNextEntry(s);
    var m := LoadNextImage(s);
    assert m.screen.infoBreak == OnMarker(m) by {
      var s2 := SetRunning(s, false).(entry := s.entry.(current := s.entry.current + 1, newEntry := true),
                                      position := s.position + 1,
                                      clock := s.clock.(running := false, ticks := Ticks(s.entry.time)));
      LoadEntryShows(s2, s.clock.running);
    }
  }

  /** Loading an entry leaves the info line reading "Break" exactly when a
      marker is on screen. */
  lemma LoadEntryShows(s: State, resume: bool)
    requires s.entry.current < |s.schedule| && s.position < |s.playlist|
    ensures LoadEntry(s, resume).screen.infoBreak == OnMarker(s)
  {
    var e := s.schedule[s.entry.current];
    var s1 := s.(entry := s.entry.(time := e.time, items := e.images - 1),
                 clock := s.clock.(ticks := Ticks(e.time), running := resume),
                 screen := s.screen.(entryDots := Dots.SetValue(Dots.SetMaximum(s.screen.entryDots, |s.schedule|),
                                                                s.entry.current + 1)));
    assert OnMarker(s1) == OnMarker(s);
  }

  // ---------------------------------------------------------------------
  // Images left
  // ---------------------------------------------------------------------

  /** An entry without images whose position holds no marker starts with
      -1 images left. */
  lemma ZeroEntryWithoutMarker(s: State, resume: bool)
    requires s.entry.current < |s.schedule| && s.schedule[s.entry.current].images == 0 && !OnMarker(s)
    ensures LoadEntry(s, resume).entry.items == -1
  {
    LoadEntryFacts(s, resume);
  }

  /** Once below zero, the images left only fall, and the entry does not
      end, until a marker is shown. */
  lemma NegativeItemsStayNegative(s: State)
    requires Inv(s) && !s.review.finished && s.entry.items < 0
    ensures var r := LoadNextImage(s);
            r.entry.current == s.entry.current &&
            (OnMarker(r) || r.entry.items == s.entry.items - 1)
  {
    AdvanceWithinEntry(s);
  }

  // ---------------------------------------------------------------------
  // The countdown
  // ---------------------------------------------------------------------

  /** The state before the end of `countdown`, when nothing was raised:
      the cue played, the flags cleared in the last ten seconds, and a
      break's grayscale ended there. */
  function BeforeEnd(s: State): (r: State)
    requires s.clock.ticks > 20 || s.position < |s.playlist|
  {
    var s1 := Sound(s, CountdownCue(s));
    var s2 := if s.clock.ticks <= 20 && (s.entry.newEntry || s.entry.endOfEntry)
              then s1.(entry := s1.entry.(newEntry := false, endOfEntry := false)) else s1;
    if s.clock.ticks <= 20 && OnMarker(s2)
    then s2.(screen := s2.screen.(mods := Modifiers.EndBreakGrayscale(s2.screen.mods))) else s2
  }

  /** A timer event either takes half a second off, or, at zero, loads the
      next image exactly once with the time left alone; in the last ten
      seconds past the end of the playlist it raises instead. */
  lemma TickSteps(s: State)
    requires Inv(s) && s.clock.running && !s.clock.blocked
    ensures s.clock.ticks <= 20 && s.position >= |s.playlist| <==> Tick(s).Raised?
    ensures Tick(s).Returned? && s.clock.ticks != 0 ==>
              Tick(s).state == BeforeEnd(s).(clock := s.clock.(ticks := s.clock.ticks - 1))
    ensures Tick(s).Returned? && s.clock.ticks == 0 ==> Tick(s).state == LoadNextImage(BeforeEnd(s))
  {
  }

  /** A timer event as written raises in two cases: in the last ten
      seconds past the end of the playlist, and at zero after the last
      image of the last entry, where `end_session` raises and leaves
      `Finish`'s state. Otherwise it is the intended tick. */
  lemma TickStepsAsWritten(s: State)
    requires Inv(s) && s.clock.running && !s.clock.blocked
    ensures TickAsWritten(s).Raised? <==>
              (s.clock.ticks <= 20 && s.position >= |s.playlist|) ||
              (s.clock.ticks == 0 && !s.review.finished && s.entry.items == 0 && s.entry.current + 1 == |s.schedule|)
    ensures TickAsWritten(s).Returned? ==> TickAsWritten(s) == Tick(s)
    ensures s.clock.ticks == 0 && s.position < |s.playlist| &&
            !s.review.finished && s.entry.items == 0 && s.entry.current + 1 == |s.schedule| ==>
              TickAsWritten(s) == Raised(Finish(NextEntryState(BeforeEnd(s))))
  {
    if CountdownFront(s).Returned? {
      var x := CountdownFront(s).state;
      assert x == BeforeEnd(s);
      BeforeEndFacts(s);
      if x.clock.ticks == 0 {
        LoadNextImageAsWrittenAgrees(x);
        if !x.review.finished && x.entry.items == 0 && x.entry.current + 1 == |x.schedule| {
          LoadEntryAsWrittenCases(NextEntryState(x), x.clock.running);
        }
      }
    }
  }

  /** What the first half of `countdown` changes: at most one cue, the
      two flags, the break's grayscale, and nothing else. */
  lemma BeforeEndFacts(s: State)
    requires s.clock.ticks > 20 || s.position < |s.playlist|
    ensures var r := BeforeEnd(s);
            r.position == s.position && r.playlist == s.playlist && r.schedule == s.schedule &&
            r.clock == s.clock && r.review == s.review &&
            r.entry == s.entry.(newEntry := r.entry.newEntry, endOfEntry := r.entry.endOfEntry) &&
            r.played == s.played + (if CountdownCue(s).Some? then [CountdownCue(s).value] else []) &&
            (s.clock.ticks <= 20 ==> !r.entry.newEntry && !r.entry.endOfEntry) &&
            (s.clock.ticks > 20 ==> r.entry == s.entry) &&
            (s.clock.ticks <= 20 && OnMarker(s) ==> !r.screen.mods.breakGrayscale) &&
            r.screen == s.screen.(mods := r.screen.mods) &&
            r.screen.mods.(breakGrayscale := s.screen.mods.breakGrayscale) == s.screen.mods
  {
  }

  /** Loading the next image never makes the time left negative, given
      non-negative entry times. */
  lemma LoadNextImageTicks(s: State)
    requires Inv(s) && s.clock.ticks >= 0 && s.entry.time >= 0
    requires forall k :: 0 <= k < |s.schedule| ==> s.schedule[k].time >= 0
    ensures LoadNextImage(s).clock.ticks >= 0
  {
    if !s.review.finished && s.entry.items == 0 {
      if s.entry.current + 1 < |s.schedule| {
        AdvanceToNextEntry(s);
      } else {
        AdvancePastLastEntry(s);
      }
    } else if !s.review.finished {
      AdvanceWithinEntry(s);
    }
  }

  /** No tick makes the time left negative, given non-negative entry
      times. */
  lemma TickNeverNegative(s: State)
    requires Inv(s) && s.clock.ticks >= 0 && s.entry.time >= 0
    requires forall k :: 0 <= k < |s.schedule| ==> s.schedule[k].time >= 0
    ensures Tick(s).state.clock.ticks >= 0
  {
    if s.clock.running && !s.clock.blocked {
      TickSteps(s);
      if Tick(s).Returned? && s.clock.ticks == 0 {
        BeforeEndFacts(s);
        LoadNextImageTicks(BeforeEnd(s));
      } else if Tick(s).Raised? {
        assert Tick(s).state.clock == s.clock;
      }
    }
  }

  /** The countdown's cue: halfway for entries of 30 seconds or more, at
      half their time; the three alerts at 10, 5 and 0.5 seconds unless an
      entry has just started or is about to end; and never two in one
      tick, since the halfway point of such an entry lies above ten
      seconds. */
  lemma CountdownCueCases(s: State)
    ensures CountdownCue(s) == Some(HalfwayCue) <==>
              s.entry.time >= 30 && s.clock.ticks == Ticks(s.entry.time / 2)
    ensures CountdownCue(s).Some? && CountdownCue(s) != Some(HalfwayCue) <==>
              !s.entry.newEntry && !s.entry.endOfEntry &&
              (s.clock.ticks == 20 || s.clock.ticks == 10 || s.clock.ticks == 1)
    ensures CountdownCue(s) == Some(FirstAlert) ==> s.clock.ticks == 20
    ensures CountdownCue(s) == Some(SecondAlert) ==> s.clock.ticks == 10
    ensures CountdownCue(s) == Some(ThirdAlert) ==> s.clock.ticks == 1
  {
    if s.entry.time >= 30 {
      assert s.entry.time / 2 >= 15;
    }
  }

  // ---------------------------------------------------------------------
  // Skipping
  // ---------------------------------------------------------------------

  /** A pop order of the right length, with distinct later positions,
      covers every later position. */
  lemma PopOrderCovers(s: State, order: seq<nat>, j: nat)
    requires PopOrder(s, order) && s.position < j < |s.playlist|
    ensures j in order
  {
    var later := Range(s.position + 1, |s.playlist|);
    var seen := set k | 0 <= k < |order| :: order[k];
    if j !in order {
      assert seen <= later - {j};
      DistinctSize(order);
      SubsetSize(seen, later - {j});
      assert false;
    }
  }

  /** The integers from `lo` up to but not including `hi`. */
  function Range(lo: int, hi: int): (r: set<int>)
    ensures forall i :: i in r <==> lo <= i < hi
    ensures |r| == if lo <= hi then hi - lo else 0
    decreases hi - lo
  {
    if lo >= hi then {} else {lo} + Range(lo + 1, hi)
  }

  lemma {:induction false} DistinctSize(order: seq<nat>)
    requires forall k, l :: 0 <= k < l < |order| ==> order[k] != order[l]
    ensures |set k | 0 <= k < |order| :: order[k]| == |order|
  {
    if order != [] {
      var rest := order[..|order| - 1];
      var x := order[|order| - 1];
      DistinctSize(rest);
      var a := set k | 0 <= k < |rest| :: rest[k];
      var b := set k | 0 <= k < |order| :: order[k];
      assert b == a + {x} by {
        forall y | y in b ensures y in a + {x} {
          var k :| 0 <= k < |order| && order[k] == y;
          if k < |rest| { assert rest[k] == y; }
        }
        forall y | y in a + {x} ensures y in b {
          if y in a {
            var k :| 0 <= k < |rest| && rest[k] == y;
            assert order[k] == y;
          } else {
            assert order[|order| - 1] == y;
          }
        }
      }
      assert x !in a by {
        forall k | 0 <= k < |rest| ensures rest[k] != x {
          assert order[k] != order[|order| - 1];
        }
      }
    }
  }

  lemma SubsetSize<T>(a: set<T>, b: set<T>)
    requires a <= b
    ensures |a| <= |b|
  {
    assert b == a + (b - a);
  }

  /** `skip_image`, for either name of the break item: position and entry
      never change and the playlist keeps its items; on a break item, or
      with no later item other than breaks, nothing happens; otherwise the
      current item trades places with one later item that is not a break,
      and the entry's full time is restarted. */
  lemma SkipCases(s: State, order: seq<nat>, name: string)
    requires Inv(s) && PopOrder(s, order) && s.position < |s.playlist|
    ensures var r := SkipWith(s, order, name);
            r.Returned? && r.state.position == s.position && r.state.entry.current == s.entry.current &&
            multiset(r.state.playlist) == multiset(s.playlist)
    ensures s.playlist[s.position] == name ==> SkipWith(s, order, name) == Returned(s)
    ensures (forall j :: s.position < j < |s.playlist| ==> s.playlist[j] == name) ==>
              SkipWith(s, order, name) == Returned(s)
    ensures SkipWith(s, order, name) != Returned(s) ==>
              exists j :: s.position < j < |s.playlist| && s.playlist[j] != name &&
                          SkipWith(s, order, name).state.playlist == PyList.Swap(s.playlist, s.position, j) &&
                          (!s.review.finished ==>
                             SkipWith(s, order, name).state.clock.ticks == Ticks(s.schedule[s.entry.current].time))
  {
    if s.playlist[s.position] != name {
      var f := FirstOther(s.playlist, order, name);
      if f.Some? {
        var k :| 0 <= k < |order| && order[k] == f.value;
        assert s.position < f.value;
        PyList.SwapIsPermutation(s.playlist, s.position, f.value);
        assert SkipWith(s, order, name).state.playlist == PyList.Swap(s.playlist, s.position, f.value);
      } else {
        forall j | s.position < j < |s.playlist| ensures s.playlist[j] == name {
          PopOrderCovers(s, order, j);
          var k :| 0 <= k < |order| && order[k] == j;
        }
      }
    }
  }

  /** Past the end of the playlist `skip_image` raises IndexError. */
  lemma SkipPastEnd(s: State, order: seq<nat>, name: string)
    requires Inv(s) && PopOrder(s, order) && s.position >= |s.playlist|
    ensures SkipWith(s, order, name) == Raised(s)
  {
  }

  /** With the marker's real name, a skip never moves a marker and keeps
      the images left. */
  lemma SkipKeepsMarkers(s: State, order: seq<nat>)
    requires Inv(s) && PopOrder(s, order)
    ensures var r := Skip(s, order).state;
            r.entry.items == s.entry.items &&
            forall k :: 0 <= k < |s.playlist| ==> (r.playlist[k] == BreakMarker <==> s.playlist[k] == BreakMarker)
  {
    if s.position < |s.playlist| && s.playlist[s.position] != BreakMarker {
      var f := FirstOther(s.playlist, order, BreakMarker);
      if f.Some? {
        var w := PyList.Swap(s.playlist, s.position, f.value);
        assert w[s.position] != BreakMarker;
      }
    }
  }

  /** As written, a skip on the last image before a break swaps the break
      marker in: the break shows early and the entry's images left drop to
      0. The intended skip leaves the playlist alone. */
  lemma SkipAsWrittenPullsBreak()
    ensures var s := TwoSlots();
            var r := SkipAsWritten(s, [1]).state;
            r.playlist == [BreakMarker, "a.png"] && r.entry.items == 0 && r.screen.mods.onBreak
    ensures Skip(TwoSlots(), [1]) == Returned(TwoSlots())
  {
    var s := TwoSlots();
    assert PyList.Swap(s.playlist, 0, 1) == [BreakMarker, "a.png"];
    assert "a.png" != "break.png";
    assert BreakMarker != "break.png";
  }

  /** One image entry and one break: the first image on screen with one
      more image to come. */
  function TwoSlots(): (s: State)
    ensures Inv(s) && PopOrder(s, [1]) && s.position == 0 && s.entry.items == 1
  {
    State([Entry(2, 30), Entry(0, 30)], ["a.png", BreakMarker], 2, 0,
          Cursor(0, 1, 30, false, false), Clock(Ticks(30), true, false),
          Review(false, CloseDelay, false, false),
          Screen(Modifiers.Defaults, false, Dots.Initial, Dots.Initial), [])
  }

  // ---------------------------------------------------------------------
  // Review mode and the close countdown
  // ---------------------------------------------------------------------

  /** `n` timeouts of the one-second close timer. */
  function CloseTicks(s: State, n: nat): (r: State)
    ensures r == s.(review := r.review)
  {
    if n == 0 then s else CloseCountdown(CloseTicks(s, n - 1))
  }

  /** While fewer seconds have passed than were left, the close timer
      runs, the window is open and each second is counted; once as many
      have passed as were left, the window is closed. */
  lemma {:induction false} CloseTicksCount(s: State, n: nat)
    requires s.review.closeRunning && !s.review.closed && n <= s.review.closeSeconds
    ensures var r := CloseTicks(s, n).review;
            r.closeSeconds == s.review.closeSeconds - n &&
            (n < s.review.closeSeconds ==> r.closeRunning && !r.closed) &&
            (n == s.review.closeSeconds && n > 0 ==> r.closed && !r.closeRunning)
  {
    if n > 0 {
      CloseTicksCount(s, n - 1);
    }
  }

  /** With the close timer stopped nothing happens, however long. */
  lemma {:induction false} CloseTicksIdle(s: State, n: nat)
    requires !s.review.closeRunning
    ensures CloseTicks(s, n) == s
  {
    if n > 0 {
      CloseTicksIdle(s, n - 1);
    }
  }

  /** The intended end: fifteen seconds after the session ends the window
      closes, and not a second earlier. */
  lemma EndSessionCloses(s: State)
    requires !s.review.closed
    ensures !CloseTicks(EndSession(s), CloseDelay - 1).review.closed
    ensures CloseTicks(EndSession(s), CloseDelay).review.closed
  {
    CloseTicksCount(EndSession(s), CloseDelay - 1);
    CloseTicksCount(EndSession(s), CloseDelay);
  }

  /** As written, the end raises before the close timer starts, so the
      window never closes by itself. */
  lemma EndSessionAsWrittenNeverCloses(s: State, n: nat)
    requires !s.review.closed && !s.review.closeRunning
    ensures CloseTicks(EndSessionAsWritten(s).state, n) == EndSessionAsWritten(s).state
    ensures !CloseTicks(EndSessionAsWritten(s).state, n).review.closed
  {
    CloseTicksIdle(EndSessionAsWritten(s).state, n);
  }

  /** In review mode the next key moves one image forward, stopping at the
      total, and cancels the close countdown; the entry and the timer's
      blocked state stay put. */
  lemma ReviewNext(s: State)
    requires Inv(s) && s.review.finished
    ensures var r := LoadNextImage(s);
            r.position == (if s.position == s.totalImages then s.position else s.position + 1) &&
            r.review == s.review.(closeRunning := false) && r.clock.blocked && !r.clock.running &&
            r.entry.current == s.entry.current && r.clock.ticks == s.clock.ticks
  {
  }

  /** In review mode the previous key moves one image back, stopping at 0,
      and cancels the close countdown. */
  lemma ReviewPrevious(s: State)
    requires Inv(s) && s.review.finished
    ensures var r := Previous(s);
            r.position == (if s.position == 0 then 0 else s.position - 1) &&
            r.review == s.review.(closeRunning := false) && !r.clock.running &&
            r.clock.blocked == s.clock.blocked && r.entry.current == s.entry.current
  {
  }

  /** Review mode keeps the timer frozen: once the countdown's signals are
      blocked, no navigation, key or timer event starts it again. */
  lemma ReviewStaysFrozen(s: State, k: Modifiers.Key, seconds: int, order: seq<nat>)
    requires Inv(s) && s.review.finished && s.clock.blocked
    ensures Tick(s) == Returned(s)
    ensures Pause(s) == s && AddSeconds(s, seconds) == s && RestartTimer(s) == s
    ensures LoadNextImage(s).clock.blocked && LoadNextImage(s).review.finished
    ensures Previous(s).clock.blocked && Previous(s).review.finished
    ensures ModifierKey(s, k).clock.blocked && ModifierKey(s, k).review.finished
    ensures PopOrder(s, order) ==> SkipWith(s, order, BreakMarker).state.clock.blocked
  {
  }

  /** The event filter cancels the close countdown on a key or a click in
      review mode, and leaves every other state alone. */
  lemma InteractCancels(s: State)
    ensures s.review.finished ==> !Interact(s).review.closeRunning
    ensures !s.review.finished ==> Interact(s) == s
    ensures CloseTicks(Interact(s), CloseDelay).review.closed == s.review.closed || !s.review.finished
  {
    if s.review.finished {
      CloseTicksIdle(Interact(s), CloseDelay);
    }
  }

  // ---------------------------------------------------------------------
  // The timer keys
  // ---------------------------------------------------------------------

  /** Pausing twice gives the same timer back. */
  lemma PauseTwice(s: State)
    ensures Pause(Pause(s)) == s
  {
  }

  /** Added seconds add up, and adding nothing changes nothing. */
  lemma AddSecondsCompose(s: State, a: int, b: int)
    ensures AddSeconds(AddSeconds(s, a), b) == AddSeconds(s, a + b)
    ensures AddSeconds(s, 0) == s
  {
  }

  // ---------------------------------------------------------------------
  // The modification keys
  // ---------------------------------------------------------------------

  /** A modification key on an image applies the key and clears the break
      flags; on a break it applies the key and sets them again, so even a
      reset leaves a break gray. Nothing but the screen and the sound
      changes, and the sound plays exactly for the keys that ask for it. */
  lemma ModifierKeyFacts(s: State, k: Modifiers.Key)
    requires Inv(s) && s.position < |s.playlist|
    ensures var r := ModifierKey(s, k);
            r.screen.mods == Modifiers.MarkBreak(Modifiers.Press(s.screen.mods, k), OnMarker(s)) &&
            r.position == s.position && r.playlist == s.playlist && r.review == s.review &&
            r.clock == s.clock && r.entry.current == s.entry.current &&
            (|r.played| == |s.played| + 1 <==> KeySound(k) && DisplayCue(s.entry).Some?)
    ensures OnMarker(s) ==> ModifierKey(s, k).screen.mods.onBreak && ModifierKey(s, k).screen.mods.breakGrayscale
    ensures !OnMarker(s) && k == Modifiers.ResetKey ==> ModifierKey(s, k).screen.mods == Modifiers.Defaults
  {
    var s1 := s.(screen := s.screen.(mods := Modifiers.Press(s.screen.mods, k)));
    assert OnMarker(s1) == OnMarker(s);
  }

  // ---------------------------------------------------------------------
  // The start
  // ---------------------------------------------------------------------

  /** An index is listed exactly when it is at or after `from` and its
      entry has no images, in increasing order. */
  lemma {:induction false} ZeroEntriesExact(schedule: seq<Entry>, from: nat, i: int)
    requires from <= |schedule|
    ensures i in ZeroEntries(schedule, from) <==> from <= i < |schedule| && schedule[i].images == 0
    decreases |schedule| - from
  {
    if from < |schedule| {
      ZeroEntriesExact(schedule, from + 1, i);
    }
  }

  lemma {:induction false} ZeroEntriesIncreasing(schedule: seq<Entry>, from: nat)
    requires from <= |schedule|
    ensures forall k, l :: 0 <= k < l < |ZeroEntries(schedule, from)| ==>
              ZeroEntries(schedule, from)[k] < ZeroEntries(schedule, from)[l]
    decreases |schedule| - from
  {
    if from < |schedule| {
      ZeroEntriesIncreasing(schedule, from + 1);
    }
  }

  /** A new session starts on the first item of the first entry, with the
      new-entry sound, the first entry's time on a running timer (unless
      the playlist is empty), the default modifiers unless the first item
      is a break, the entry dots on the first of the schedule's entries,
      and the close countdown idle. */
  lemma StartShape(schedule: seq<Entry>, playlist: seq<string>, totalImages: int)
    requires |schedule| > 0
    ensures var r := Start(schedule, playlist, totalImages);
            r.position == 0 && r.entry.current == 0 && r.played == [NewEntryCue] &&
            r.entry.time == schedule[0].time && r.clock.ticks == Ticks(schedule[0].time) &&
            r.clock.running == (|playlist| > 0) && !r.clock.blocked &&
            r.review == Review(false, CloseDelay, false, false) &&
            r.screen.entryDots.maximum == |schedule| && r.screen.entryDots.value == 1 &&
            (|playlist| > 0 && playlist[0] != BreakMarker ==> r.screen.mods == Modifiers.Defaults) &&
            (|playlist| > 0 && playlist[0] == BreakMarker ==> r.entry.items == 0 && r.screen.mods.onBreak)
  {
    var e := schedule[0];
    var entryDots := Dots.SetValue(Dots.SetMaximum(Dots.SetBreaks(Dots.Initial, ZeroEntries(schedule, 0)), |schedule|), 1);
    var s := State(schedule, playlist, totalImages, 0,
                   Cursor(0, e.images, e.time, true, !(e.images > 1)),
                   Clock(Ticks(e.time), true, false),
                   Review(false, CloseDelay, false, false),
                   Screen(Modifiers.Defaults, false, Dots.Initial, entryDots),
                   []);
    LoadEntryFacts(s, true);
  }
}
