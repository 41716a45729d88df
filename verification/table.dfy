/** The schedule table of the main window: rows of three text cells
    (entry number, image count, seconds per image), the edits the window
    makes to it, and what `grab_schedule`, `update_total` and
    `is_valid_session` read out of it. */
module Table {
  import opened Maybe
  import opened PyText
  import opened Schedule
  import PyList

  /** A table cell: `None` when no item was ever set there. */
  type Cell = Option<string>

  datatype Row = Row(number: Cell, images: Cell, duration: Cell)

  /** `int(item.text())` on a cell; `None` covers both the missing item
      and the `ValueError`. */
  function CellInt(c: Cell): Option<int>
  {
    match c
    case None => None
    case Some(t) => ParseInt(t)
  }

  predicate Parses(row: Row)
  {
    CellInt(row.images).Some? && CellInt(row.duration).Some?
  }

  /** The entry a readable row stands for. */
  function RowEntry(row: Row): Entry
    requires Parses(row)
  {
    Entry(CellInt(row.images).value, CellInt(row.duration).value)
  }

  /** The entry number column reads 1, 2, 3, ... */
  predicate Numbered(rows: seq<Row>)
  {
    forall i :: 0 <= i < |rows| ==> rows[i].number == Some(IntToStr(i + 1))
  }

  /** The result of an edit: the rows, the current row (-1 for none) and
      whether the "Select a row in the table!" error was shown. */
  datatype Edit = Edit(rows: seq<Row>, current: int, error: bool)

  // ---------------------------------------------------------------------
  // append_schedule
  // ---------------------------------------------------------------------

  /** The three spin boxes under the table. */
  datatype Form = Form(images: int, minutes: int, seconds: int)

  datatype Appended = Appended(rows: seq<Row>, form: Form, rejected: bool)

  function EntryRow(number: int, images: int, seconds: int): Row
  {
    Row(Some(IntToStr(number)), Some(IntToStr(images)), Some(IntToStr(seconds)))
  }

  /** `append_schedule`: a zero duration is refused; otherwise a row is
      added at the end and the spin boxes go back to zero. */
  function AppendSchedule(rows: seq<Row>, form: Form): (r: Appended)
    ensures r.rejected <==> form.minutes == 0 && form.seconds == 0
    ensures r.rejected ==> r.rows == rows && r.form == form
    ensures !r.rejected ==> |r.rows| == |rows| + 1 && r.rows[..|rows|] == rows
    ensures !r.rejected ==> r.form == Form(0, 0, 0)
  {
    if form.minutes == 0 && form.seconds == 0 then Appended(rows, form, true)
    else
      var row := EntryRow(|rows| + 1, form.images, form.minutes * 60 + form.seconds);
      Appended(rows + [row], Form(0, 0, 0), false)
  }

  // ---------------------------------------------------------------------
  // remove_row
  // ---------------------------------------------------------------------

  /** Rows from `from` on get the numbers `from + 1`, `from + 2`, ... */
  function Renumber(rows: seq<Row>, from: nat): (r: seq<Row>)
    ensures |r| == |rows|
    ensures forall i :: 0 <= i < |r| ==> r[i].images == rows[i].images && r[i].duration == rows[i].duration
    ensures forall i :: 0 <= i < |r| && i < from ==> r[i].number == rows[i].number
    ensures forall i :: from <= i < |r| ==> r[i].number == Some(IntToStr(i + 1))
  {
    seq(|rows|, i requires 0 <= i < |rows| =>
      if i < from then rows[i] else rows[i].(number := Some(IntToStr(i + 1))))
  }

  /** `remove_row`: the current row goes (a current row of -1 removes
      nothing), the rows from there on are renumbered, and the current row
      stays put or, past the end, moves up by one. */
  function RemoveRow(rows: seq<Row>, current: int): (r: Edit)
    requires -1 <= current < |rows|
    ensures |r.rows| == if current >= 0 then |rows| - 1 else |rows|
    ensures forall i :: 0 <= i < |r.rows| && (current < 0 || i < current) ==>
              r.rows[i].images == rows[i].images && r.rows[i].duration == rows[i].duration
    ensures forall i :: 0 <= current <= i < |r.rows| ==>
              r.rows[i].images == rows[i + 1].images && r.rows[i].duration == rows[i + 1].duration
    ensures -1 <= r.current < |r.rows| || (r.rows == [] && r.current == -1)
    ensures current < 0 ==> r.current == -1
    ensures 0 <= current < |rows| - 1 ==> r.current == current
    ensures 0 <= current && current == |rows| - 1 ==> r.current == current - 1
    ensures !r.error
  {
    var rest := if current >= 0 then rows[..current] + rows[current + 1..] else rows;
    var out := Renumber(rest, if current < 0 then 0 else current);
    Edit(out, if current != |out| then current else current - 1, false)
  }

  lemma RemoveRowKeepsNumbering(rows: seq<Row>, current: int)
    requires -1 <= current < |rows| && Numbered(rows)
    ensures Numbered(RemoveRow(rows, current).rows)
  {
  }

  // ---------------------------------------------------------------------
  // move_up / move_down
  // ---------------------------------------------------------------------

  /** Exchange the image cells of rows `a` and `b`. */
  function SwapImages(rows: seq<Row>, a: nat, b: nat): seq<Row>
    requires a < |rows| && b < |rows|
  {
    rows[a := rows[a].(images := rows[b].images)][b := rows[b].(images := rows[a].images)]
  }

  /** Exchange the duration cells of rows `a` and `b`. */
  function SwapDurations(rows: seq<Row>, a: nat, b: nat): seq<Row>
    requires a < |rows| && b < |rows|
  {
    rows[a := rows[a].(duration := rows[b].duration)][b := rows[b].(duration := rows[a].duration)]
  }

  /** Move the cells of row `from` to row `to` and back, one column at a
      time as the window does: a missing cell stops the loop, leaving the
      columns already handled exchanged. */
  function SwapColumns(rows: seq<Row>, from: nat, to: nat): (r: Edit)
    requires from < |rows| && to < |rows| && from != to
    ensures |r.rows| == |rows|
    ensures forall i :: 0 <= i < |rows| ==> r.rows[i].number == rows[i].number
    ensures forall i :: 0 <= i < |rows| && i != from && i != to ==> r.rows[i] == rows[i]
    ensures r.error <==> rows[from].images.None? || rows[to].images.None?
                         || rows[from].duration.None? || rows[to].duration.None?
    ensures !r.error ==> r.current == to
    ensures !r.error ==>
              r.rows[to].images == rows[from].images && r.rows[to].duration == rows[from].duration &&
              r.rows[from].images == rows[to].images && r.rows[from].duration == rows[to].duration
    ensures r.error ==> r.current == from
  {
    if rows[from].images.None? || rows[to].images.None? then Edit(rows, from, true)
    else
      var once := SwapImages(rows, from, to);
      if rows[from].duration.None? || rows[to].duration.None? then Edit(once, from, true)
      else Edit(SwapDurations(once, from, to), to, false)
  }

  /** `move_up`: nothing happens on the first row or without a current
      row. */
  function MoveUp(rows: seq<Row>, current: int): (r: Edit)
    requires -1 <= current < |rows|
    ensures |r.rows| == |rows|
    ensures current <= 0 ==> r == Edit(rows, current, false)
    ensures current > 0 && !r.error ==>
              r.current == current - 1 &&
              r.rows[current - 1].images == rows[current].images &&
              r.rows[current].images == rows[current - 1].images
  {
    if current <= 0 then Edit(rows, current, false)
    else SwapColumns(rows, current, current - 1)
  }

  /** `move_down`: nothing happens on the last row; without a current row
      the missing item shows the error. */
  function MoveDown(rows: seq<Row>, current: int): (r: Edit)
    requires -1 <= current < |rows|
    ensures |r.rows| == |rows|
    ensures current >= |rows| - 1 ==> r == Edit(rows, current, false)
    ensures current == -1 && |rows| > 0 ==> r == Edit(rows, current, true)
    ensures 0 <= current < |rows| - 1 && !r.error ==>
              r.current == current + 1 &&
              r.rows[current + 1].images == rows[current].images &&
              r.rows[current].images == rows[current + 1].images
  {
    if current >= |rows| - 1 then Edit(rows, current, false)
    else if current < 0 then Edit(rows, current, true)
    else SwapColumns(rows, current, current + 1)
  }

  predicate Complete(rows: seq<Row>)
  {
    forall i :: 0 <= i < |rows| ==> rows[i].images.Some? && rows[i].duration.Some?
  }

  /** Moving a complete row up and then down again restores the table and
      the current row. */
  lemma MoveUpThenDown(rows: seq<Row>, current: int)
    requires 0 < current < |rows| && Complete(rows)
    ensures MoveUp(rows, current).error == false
    ensures MoveDown(MoveUp(rows, current).rows, current - 1) == Edit(rows, current, false)
  {
    var up := MoveUp(rows, current);
    var down := MoveDown(up.rows, current - 1);
    assert Complete(up.rows);
    assert down.rows == rows;
  }

  lemma MoveKeepsNumbering(rows: seq<Row>, current: int)
    requires -1 <= current < |rows| && Numbered(rows)
    ensures Numbered(MoveUp(rows, current).rows)
    ensures Numbered(MoveDown(rows, current).rows)
  {
  }

  lemma AppendKeepsNumbering(rows: seq<Row>, form: Form)
    requires Numbered(rows)
    ensures Numbered(AppendSchedule(rows, form).rows)
  {
  }

  // ---------------------------------------------------------------------
  // grab_schedule
  // ---------------------------------------------------------------------

  /** What `grab_schedule` leaves behind: the entries read so far, the
      `has_break` flag, and whether every row was read (`int()` raising ends
      it early otherwise). */
  datatype Grabbed = Grabbed(schedule: seq<Entry>, hasBreak: bool, ok: bool)

  /** What `grab_schedule` promises about reading `rows` with the flag
      `hasBreak` on entry. */
  predicate ReadsRows(rows: seq<Row>, hasBreak: bool, r: Grabbed)
  {
    (r.ok <==> forall k :: 0 <= k < |rows| ==> Parses(rows[k])) &&
    (r.ok ==> |r.schedule| == |rows|) &&
    |r.schedule| <= |rows| &&
    (forall k :: 0 <= k < |r.schedule| ==> Parses(rows[k]) && r.schedule[k] == RowEntry(rows[k])) &&
    (r.hasBreak <==> hasBreak || exists k :: 0 <= k < |r.schedule| && r.schedule[k].images == 0)
  }

  /** `grab_schedule`: one entry per row; a zero image count sets
      `has_break`, and nothing ever clears it. */
  function GrabSchedule(rows: seq<Row>, hasBreak: bool): (r: Grabbed)
    ensures r.ok <==> forall k :: 0 <= k < |rows| ==> Parses(rows[k])
    ensures r.ok ==> |r.schedule| == |rows|
    ensures |r.schedule| <= |rows|
    ensures forall k :: 0 <= k < |r.schedule| ==> Parses(rows[k]) && r.schedule[k] == RowEntry(rows[k])
    ensures r.hasBreak <==> hasBreak || exists k :: 0 <= k < |r.schedule| && r.schedule[k].images == 0
    decreases |rows|
  {
    if rows == [] then Grabbed([], hasBreak, true)
    else if !Parses(rows[0]) then Grabbed([], hasBreak, false)
    else
      var e := RowEntry(rows[0]);
      var rest := GrabSchedule(rows[1..], hasBreak || e.images == 0);
      ReadsCons(rows, hasBreak, rest);
      Grabbed([e] + rest.schedule, rest.hasBreak, rest.ok)
  }

  /** A readable first row in front of what the other rows read. */
  lemma ReadsCons(rows: seq<Row>, hasBreak: bool, rest: Grabbed)
    requires rows != [] && Parses(rows[0])
    requires ReadsRows(rows[1..], hasBreak || RowEntry(rows[0]).images == 0, rest)
    ensures ReadsRows(rows, hasBreak, Grabbed([RowEntry(rows[0])] + rest.schedule, rest.hasBreak, rest.ok))
  {
    var e := RowEntry(rows[0]);
    EntriesCons(rows, rest.schedule);
    AllParseCons(rows);
    BreakCons(e, rest.schedule);
  }

  lemma EntriesCons(rows: seq<Row>, rest: seq<Entry>)
    requires rows != [] && Parses(rows[0]) && |rest| < |rows|
    requires forall k :: 0 <= k < |rest| ==> Parses(rows[1..][k]) && rest[k] == RowEntry(rows[1..][k])
    ensures forall k :: 0 <= k < |[RowEntry(rows[0])] + rest| ==>
              Parses(rows[k]) && ([RowEntry(rows[0])] + rest)[k] == RowEntry(rows[k])
  {
    var r := [RowEntry(rows[0])] + rest;
    forall k | 0 <= k < |r|
      ensures Parses(rows[k]) && r[k] == RowEntry(rows[k])
    {
      if k > 0 {
        assert rows[k] == rows[1..][k - 1] && r[k] == rest[k - 1];
      }
    }
  }

  lemma AllParseCons(rows: seq<Row>)
    requires rows != []
    ensures (forall k :: 0 <= k < |rows| ==> Parses(rows[k])) <==>
            Parses(rows[0]) && forall k :: 0 <= k < |rows[1..]| ==> Parses(rows[1..][k])
  {
    assert forall k :: 1 <= k < |rows| ==> rows[k] == rows[1..][k - 1];
  }

  lemma BreakCons(e: Entry, rest: seq<Entry>)
    ensures (exists k :: 0 <= k < |[e] + rest| && ([e] + rest)[k].images == 0) <==>
            e.images == 0 || exists k :: 0 <= k < |rest| && rest[k].images == 0
  {
    var r := [e] + rest;
    assert r[0] == e;
    assert forall k :: 1 <= k < |r| ==> r[k] == rest[k - 1];
    if exists k :: 0 <= k < |rest| && rest[k].images == 0 {
      var k :| 0 <= k < |rest| && rest[k].images == 0;
      assert r[k + 1].images == 0;
    }
  }

  // ---------------------------------------------------------------------
  // update_total
  // ---------------------------------------------------------------------

  /** The seconds an entry contributes to the total time. */
  function EntrySeconds(e: Entry): int
  {
    if e.images > 0 then e.time * e.images else e.time
  }

  function TotalTime(s: seq<Entry>): int
  {
    if s == [] then 0 else EntrySeconds(s[0]) + TotalTime(s[1..])
  }

  /** What `update_total` shows: nothing new when the last row is not
      filled in or a cell fails to parse (`Unchanged`, `Failed`), else both
      totals; the time cell is `None` when `format_seconds` raised. */
  datatype Totals = Unchanged | Failed | Shown(images: int, time: int, imagesText: string, timeText: Option<string>)

  /** The two sums of the loop in `update_total`. */
  function Sums(rows: seq<Row>): Option<(int, int)>
  {
    if rows == [] then Some((0, 0))
    else if !Parses(rows[0]) then None
    else AddEntry(RowEntry(rows[0]), Sums(rows[1..]))
  }

  /** One step of the loop: the entry's images and seconds added to the
      running sums, unless a cell already failed. */
  function AddEntry(e: Entry, sums: Option<(int, int)>): Option<(int, int)>
  {
    match sums
    case None => None
    case Some((i, t)) => Some((e.images + i, EntrySeconds(e) + t))
  }

  function UpdateTotal(rows: seq<Row>): (r: Totals)
    ensures r.Shown? ==> r.imagesText == IntToStr(r.images) && r.timeText == FormatSeconds(r.time)
    ensures r.Unchanged? <==> rows == [] || rows[|rows| - 1].images.None? || rows[|rows| - 1].duration.None?
  {
    if rows == [] || rows[|rows| - 1].images.None? || rows[|rows| - 1].duration.None? then Unchanged
    else
      match Sums(rows)
      case None => Failed
      case Some((i, t)) => Shown(i, t, IntToStr(i), FormatSeconds(t))
  }

  /** The loop adds up exactly the schedule `grab_schedule` reads, and fails
      exactly when `grab_schedule` would. */
  lemma {:induction false} SumsOfGrab(rows: seq<Row>, hasBreak: bool)
    ensures Sums(rows).Some? <==> GrabSchedule(rows, hasBreak).ok
    ensures GrabSchedule(rows, hasBreak).ok ==>
              Sums(rows) == Some((TotalImages(GrabSchedule(rows, hasBreak).schedule),
                                  TotalTime(GrabSchedule(rows, hasBreak).schedule)))
    decreases |rows|
  {
    if rows == [] {
    } else if !Parses(rows[0]) {
      StopStep(rows, hasBreak);
    } else {
      var e := RowEntry(rows[0]);
      var g1 := GrabSchedule(rows[1..], hasBreak || e.images == 0);
      SumsOfGrab(rows[1..], hasBreak || e.images == 0);
      GrabStep(rows, hasBreak);
      SumsStep(rows);
      AddStep(e, Sums(rows[1..]), g1);
    }
  }

  /** An unreadable first row stops both the loop and `grab_schedule`. */
  lemma StopStep(rows: seq<Row>, hasBreak: bool)
    requires rows != [] && !Parses(rows[0])
    ensures Sums(rows).None? && !GrabSchedule(rows, hasBreak).ok
  {
  }

  /** Adding one entry to sums that agree with a read schedule agrees with
      the schedule that has the entry in front. */
  lemma AddStep(e: Entry, sums: Option<(int, int)>, g1: Grabbed)
    requires sums.Some? <==> g1.ok
    requires g1.ok ==> sums == Some((TotalImages(g1.schedule), TotalTime(g1.schedule)))
    ensures AddEntry(e, sums).Some? <==> g1.ok
    ensures g1.ok ==> AddEntry(e, sums) == Some((TotalImages([e] + g1.schedule), TotalTime([e] + g1.schedule)))
  {
    TotalsOfCons(e, g1.schedule);
  }

  /** One row of `grab_schedule`: a readable first row puts its entry in
      front of what the rest gives. */
  lemma GrabStep(rows: seq<Row>, hasBreak: bool)
    requires rows != [] && Parses(rows[0])
    ensures var e := RowEntry(rows[0]);
            var g1 := GrabSchedule(rows[1..], hasBreak || e.images == 0);
            GrabSchedule(rows, hasBreak) == Grabbed([e] + g1.schedule, g1.hasBreak, g1.ok)
  {
  }

  /** One row of the loop in `update_total`. */
  lemma SumsStep(rows: seq<Row>)
    requires rows != [] && Parses(rows[0])
    ensures Sums(rows) == AddEntry(RowEntry(rows[0]), Sums(rows[1..]))
  {
  }

  lemma TotalsOfCons(e: Entry, s: seq<Entry>)
    ensures TotalImages([e] + s) == e.images + TotalImages(s)
    ensures TotalTime([e] + s) == EntrySeconds(e) + TotalTime(s)
  {
    assert ([e] + s)[1..] == s;
  }

  lemma UpdateTotalOfSchedule(rows: seq<Row>)
    requires rows != [] && GrabSchedule(rows, false).ok
    ensures UpdateTotal(rows).Shown?
    ensures UpdateTotal(rows).images == TotalImages(GrabSchedule(rows, false).schedule)
    ensures UpdateTotal(rows).time == TotalTime(GrabSchedule(rows, false).schedule)
  {
    SumsOfGrab(rows, false);
    assert Parses(rows[|rows| - 1]);
  }

  /** A row written by `append_schedule` reads back as the numbers written. */
  lemma EntryRowReads(number: int, images: int, seconds: int)
    ensures CellInt(EntryRow(number, images, seconds).images) == Some(images)
    ensures CellInt(EntryRow(number, images, seconds).duration) == Some(seconds)
    ensures Parses(EntryRow(number, images, seconds))
    ensures RowEntry(EntryRow(number, images, seconds)) == Entry(images, seconds)
  {
    IntToStrRoundTrip(images);
    IntToStrRoundTrip(seconds);
  }

  /** Extending a readable table leaves the entries read from the old rows
      as they were, whatever the `has_break` flag. */
  lemma GrabPrefix(rows: seq<Row>, extra: Row, h1: bool, h2: bool)
    requires GrabSchedule(rows, h1).ok && GrabSchedule(rows + [extra], h2).ok
    ensures GrabSchedule(rows + [extra], h2).schedule[..|rows|] == GrabSchedule(rows, h1).schedule
  {
    var a := GrabSchedule(rows, h1).schedule;
    var b := GrabSchedule(rows + [extra], h2).schedule;
    var out := rows + [extra];
    forall k | 0 <= k < |rows|
      ensures b[k] == a[k]
    {
      assert out[k] == rows[k];
    }
  }

  /** Reading a readable table with one more readable row gives one more
      entry at the end. */
  lemma GrabAppend(rows: seq<Row>, row: Row, hasBreak: bool)
    requires GrabSchedule(rows, hasBreak).ok && Parses(row)
    ensures GrabSchedule(rows + [row], hasBreak).ok
    ensures GrabSchedule(rows + [row], hasBreak).schedule
            == GrabSchedule(rows, hasBreak).schedule + [RowEntry(row)]
  {
    var out := rows + [row];
    AllParseAppend(rows, row);
    var g := GrabSchedule(out, hasBreak).schedule;
    GrabPrefix(rows, row, hasBreak, hasBreak);
    assert out[|rows|] == row;
    assert g == g[..|rows|] + [g[|rows|]];
  }

  lemma AllParseAppend(rows: seq<Row>, row: Row)
    requires forall k :: 0 <= k < |rows| ==> Parses(rows[k])
    requires Parses(row)
    ensures forall k :: 0 <= k < |rows + [row]| ==> Parses((rows + [row])[k])
  {
    forall k | 0 <= k < |rows + [row]|
      ensures Parses((rows + [row])[k])
    {
      if k < |rows| {
        assert (rows + [row])[k] == rows[k];
      }
    }
  }

  /** Appending an entry to a readable table adds it at the end of the
      schedule. */
  lemma AppendThenGrab(rows: seq<Row>, form: Form, hasBreak: bool)
    requires GrabSchedule(rows, hasBreak).ok
    requires !(form.minutes == 0 && form.seconds == 0)
    ensures GrabSchedule(AppendSchedule(rows, form).rows, hasBreak).ok
    ensures GrabSchedule(AppendSchedule(rows, form).rows, hasBreak).schedule
            == GrabSchedule(rows, hasBreak).schedule + [Entry(form.images, form.minutes * 60 + form.seconds)]
  {
    var seconds := form.minutes * 60 + form.seconds;
    var row := EntryRow(|rows| + 1, form.images, seconds);
    EntryRowReads(|rows| + 1, form.images, seconds);
    GrabAppend(rows, row, hasBreak);
  }

  /** The totals of the test table 1:10×30 s, 2:break of 120 s, 3:1×180 s. */
  lemma UpdateTotalExample()
    ensures UpdateTotal([EntryRow(1, 10, 30), EntryRow(2, 0, 120), EntryRow(3, 1, 180)]).Shown?
    ensures UpdateTotal([EntryRow(1, 10, 30), EntryRow(2, 0, 120), EntryRow(3, 1, 180)]).images == 11
    ensures UpdateTotal([EntryRow(1, 10, 30), EntryRow(2, 0, 120), EntryRow(3, 1, 180)]).time == 600
  {
    UpdateTotalOfThree(10, 30, 0, 120, 1, 180);
  }

  /** Three rows written by `append_schedule` add up entry by entry. */
  lemma UpdateTotalOfThree(i1: int, t1: int, i2: int, t2: int, i3: int, t3: int)
    ensures UpdateTotal([EntryRow(1, i1, t1), EntryRow(2, i2, t2), EntryRow(3, i3, t3)]).Shown?
    ensures UpdateTotal([EntryRow(1, i1, t1), EntryRow(2, i2, t2), EntryRow(3, i3, t3)]).images == i1 + i2 + i3
    ensures UpdateTotal([EntryRow(1, i1, t1), EntryRow(2, i2, t2), EntryRow(3, i3, t3)]).time
            == EntrySeconds(Entry(i1, t1)) + EntrySeconds(Entry(i2, t2)) + EntrySeconds(Entry(i3, t3))
  {
    var r1, r2, r3 := EntryRow(1, i1, t1), EntryRow(2, i2, t2), EntryRow(3, i3, t3);
    var rows := [r1, r2, r3];
    EntryRowReads(1, i1, t1);
    EntryRowReads(2, i2, t2);
    EntryRowReads(3, i3, t3);
    assert rows[1..] == [r2, r3];
    assert rows[1..][1..] == [r3];
    assert [r3][1..] == [];
    SumsStep([r3]);
    SumsStep([r2, r3]);
    SumsStep(rows);
    ShownOfSums(rows);
  }

  /** A table whose last row is filled in shows the loop's sums. */
  lemma ShownOfSums(rows: seq<Row>)
    requires rows != [] && rows[|rows| - 1].images.Some? && rows[|rows| - 1].duration.Some?
    requires Sums(rows).Some?
    ensures UpdateTotal(rows).Shown?
    ensures (UpdateTotal(rows).images, UpdateTotal(rows).time) == Sums(rows).value
  {
  }

  // ---------------------------------------------------------------------
  // is_valid_session
  // ---------------------------------------------------------------------

  /** Why `is_valid_session` said no, or that it said yes. */
  datatype Verdict = NotNumbers | EmptySchedule | MissingFile(name: string) | TooFewImages | Valid

  /** Index of the first file that `isFile` rejects, or `|files|`. */
  function FirstMissing(files: seq<string>, isFile: string -> bool): (k: nat)
    ensures k <= |files|
    ensures k < |files| ==> !isFile(files[k])
    ensures forall i :: 0 <= i < k ==> isFile(files[i])
  {
    if files == [] then 0
    else if !isFile(files[0]) then 0
    else 1 + FirstMissing(files[1..], isFile)
  }

  datatype Validation = Validation(verdict: Verdict, files: seq<string>)

  /** `is_valid_session`: the number check on the table, the empty
      schedule, then the first missing file (which is dropped from the
      selection), then too few files for the scheduled images. */
  function IsValidSession(rows: seq<Row>, schedule: seq<Entry>, files: seq<string>,
                          isFile: string -> bool): (r: Validation)
    ensures r.verdict.Valid? <==>
              (forall k :: 0 <= k < |rows| ==> Parses(rows[k])) && |schedule| > 0 &&
              (forall i :: 0 <= i < |files| ==> isFile(files[i])) && TotalImages(schedule) <= |files|
    ensures r.verdict.NotNumbers? <==> exists k :: 0 <= k < |rows| && !Parses(rows[k])
    ensures !r.verdict.MissingFile? ==> r.files == files
    ensures r.verdict.MissingFile? ==>
              |r.files| == |files| - 1 && !isFile(r.verdict.name) &&
              multiset(r.files) + multiset{r.verdict.name} == multiset(files)
  {
    if exists k :: 0 <= k < |rows| && !Parses(rows[k]) then Validation(NotNumbers, files)
    else if |schedule| == 0 then Validation(EmptySchedule, files)
    else
      var k := FirstMissing(files, isFile);
      if k < |files| then
        assert files == files[..k] + [files[k]] + files[k + 1..];
        Validation(MissingFile(files[k]), files[..k] + files[k + 1..])
      else if TotalImages(schedule) > |files| then Validation(TooFewImages, files)
      else Validation(Valid, files)
  }

  // ---------------------------------------------------------------------
  // preset load
  // ---------------------------------------------------------------------

  /** A saved preset: (row key, cell texts) pairs in the order the JSON
      object lists them. */
  type Preset = seq<(string, seq<string>)>

  function CellOf(values: seq<string>, column: nat): Cell
  {
    if column < |values| then Some(values[column]) else None
  }

  /** The row a preset entry fills in; texts beyond the third column have
      no column to go to. */
  function PresetRow(values: seq<string>): Row
  {
    Row(CellOf(values, 0), CellOf(values, 1), CellOf(values, 2))
  }

  /** `(key, index)` before `(key', index')` in the order Python's stable
      `sorted` produces. */
  predicate Before(keys: seq<int>, i: nat, j: nat)
    requires i < |keys| && j < |keys|
  {
    keys[i] < keys[j] || (keys[i] == keys[j] && i < j)
  }

  predicate SortedBy(keys: seq<int>, order: seq<nat>)
  {
    (forall p :: 0 <= p < |order| ==> order[p] < |keys|) &&
    (forall p, q :: 0 <= p < q < |order| ==> Before(keys, order[p], order[q]))
  }

  /** Insert index `x` into an order sorted by `Before`. */
  function InsertOrdered(keys: seq<int>, order: seq<nat>, x: nat): (r: seq<nat>)
    requires x < |keys| && SortedBy(keys, order)
    requires forall p :: 0 <= p < |order| ==> order[p] != x
    ensures SortedBy(keys, r)
    ensures |r| == |order| + 1
    ensures multiset(r) == multiset(order) + multiset{x}
    decreases |order|
  {
    if order == [] then [x]
    else if Before(keys, x, order[0]) then
      assert forall p :: 0 <= p < |order| ==> Before(keys, x, order[p]);
      [x] + order
    else
      var rest := InsertOrdered(keys, order[1..], x);
      HeadBeforeRest(keys, order, x, rest);
      assert order == [order[0]] + order[1..];
      [order[0]] + rest
  }

  lemma HeadBeforeRest(keys: seq<int>, order: seq<nat>, x: nat, rest: seq<nat>)
    requires x < |keys| && order != [] && SortedBy(keys, order)
    requires forall p :: 0 <= p < |order| ==> order[p] != x
    requires !Before(keys, x, order[0])
    requires SortedBy(keys, rest) && multiset(rest) == multiset(order[1..]) + multiset{x}
    ensures SortedBy(keys, [order[0]] + rest)
  {
    forall p | 0 <= p < |rest|
      ensures Before(keys, order[0], rest[p])
    {
      assert rest[p] in multiset(rest);
      if rest[p] != x {
        assert rest[p] in order[1..];
        var q :| 0 <= q < |order[1..]| && order[1..][q] == rest[p];
        assert order[q + 1] == rest[p];
      }
    }
    var r := [order[0]] + rest;
    assert forall p :: 1 <= p < |r| ==> r[p] == rest[p - 1];
  }

  /** The indices `0 .. n - 1` in sorted order. */
  function SortIndices(keys: seq<int>, n: nat): (r: seq<nat>)
    requires n <= |keys|
    ensures SortedBy(keys, r)
    ensures |r| == n
    ensures multiset(r) == Upto(n)
  {
    if n == 0 then []
    else
      var prev := SortIndices(keys, n - 1);
      UptoBelow(n - 1, prev);
      InsertOrdered(keys, prev, n - 1)
  }

  /** The multiset holding each of `0 .. n - 1` once. */
  ghost function Upto(n: nat): multiset<nat>
  {
    if n == 0 then multiset{} else Upto(n - 1) + multiset{(n - 1) as nat}
  }

  lemma {:induction false} UptoMembers(n: nat)
    ensures forall i: nat :: i in Upto(n) <==> i < n
  {
    if n > 0 {
      UptoMembers(n - 1);
    }
  }

  lemma UptoBelow(n: nat, xs: seq<nat>)
    requires multiset(xs) == Upto(n)
    ensures forall p :: 0 <= p < |xs| ==> xs[p] < n
  {
    UptoMembers(n);
    forall p | 0 <= p < |xs|
      ensures xs[p] < n
    {
      assert xs[p] in multiset(xs);
    }
  }

  function KeysOf(preset: Preset): Option<seq<int>>
  {
    if preset == [] then Some([])
    else
      var k := ParseInt(preset[0].0);
      var ks := KeysOf(preset[1..]);
      if k.Some? && ks.Some? then Some([k.value] + ks.value) else None
  }

  datatype Loaded = Loaded(rows: seq<Row>, error: bool)

  /** The preset `load`: an empty or unknown preset changes nothing;
      otherwise the table is cleared and, when every key reads as an
      integer, refilled in key order (equal keys keep their order). */
  function Load(preset: Preset, rows: seq<Row>): (r: Loaded)
    ensures preset == [] ==> r == Loaded(rows, false)
    ensures preset != [] && KeysOf(preset).None? ==> r == Loaded([], true)
    ensures !r.error ==> preset == [] || |r.rows| == |preset|
  {
    if preset == [] then Loaded(rows, false)
    else
      match KeysOf(preset)
      case None => Loaded([], true)
      case Some(keys) =>
        KeysLength(preset);
        var order := SortIndices(keys, |keys|);
        UptoBelow(|keys|, order);
        Loaded(PresetRows(preset, order), false)
  }

  /** The rows of the entries `order` lists, in that order. */
  function PresetRows(preset: Preset, order: seq<nat>): (r: seq<Row>)
    requires forall p :: 0 <= p < |order| ==> order[p] < |preset|
    ensures |r| == |order|
    ensures forall p :: 0 <= p < |order| ==> r[p] == PresetRow(preset[order[p]].1)
  {
    if order == [] then []
    else [PresetRow(preset[order[0]].1)] + PresetRows(preset, order[1..])
  }

  lemma {:induction false} KeysLength(preset: Preset)
    requires KeysOf(preset).Some?
    ensures |KeysOf(preset).value| == |preset|
    ensures forall i :: 0 <= i < |preset| ==> ParseInt(preset[i].0) == Some(KeysOf(preset).value[i])
  {
    if preset != [] {
      KeysLength(preset[1..]);
      assert forall i :: 1 <= i < |preset| ==> preset[i] == preset[1..][i - 1];
    }
  }

  /** Loaded rows come in the order of their integer keys, equal keys in
      their saved order, and each saved entry fills exactly one row: row
      `p` holds entry `order[p]` of a permutation `order` of the entries
      sorted by `(key, index)`. */
  lemma LoadOrder(preset: Preset, rows: seq<Row>, order: seq<nat>)
    requires preset != [] && KeysOf(preset).Some?
    requires order == SortIndices(KeysOf(preset).value, |KeysOf(preset).value|)
    ensures !Load(preset, rows).error
    ensures multiset(order) == Upto(|preset|)
    ensures SortedBy(KeysOf(preset).value, order)
    ensures |Load(preset, rows).rows| == |order| == |preset|
    ensures forall p :: 0 <= p < |order| ==>
              order[p] < |preset| && Load(preset, rows).rows[p] == PresetRow(preset[order[p]].1)
  {
    KeysLength(preset);
    UptoBelow(|preset|, order);
  }
}
