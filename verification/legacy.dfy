/** The older copy of the main window's helpers in `Image_Queuer.py`. They
    follow string rules rather than the parsed ones of the current window:
    file types by their last characters, duplicates by base name, breaks by
    the literal cell text `'0'` and by the base name `break.png`. */
module LegacyQueuer {
  import opened Maybe
  import opened PyText
  import PyList
  import Schedule
  import Selection
  import Table

  // ---------------------------------------------------------------------
  // check_files
  // ---------------------------------------------------------------------

  const ValidTypes: seq<string> := [".bmp", ".jpg", ".jpeg", ".png"]

  /** The last four or the last five characters, in lower case, are a
      supported extension. */
  predicate HasValidSuffix(file: string)
  {
    Lower(LastChars(file, 4)) in ValidTypes || Lower(LastChars(file, 5)) in ValidTypes
  }

  /** `check_files`: every name goes to exactly one list, in order; no file
      system test is made. */
  function CheckFiles(files: seq<string>): (r: Selection.Checked)
    ensures |r.valid| + |r.invalid| == |files|
  {
    if files == [] then Selection.Checked([], [])
    else
      var rest := CheckFiles(files[1..]);
      if HasValidSuffix(files[0]) then Selection.Checked([files[0]] + rest.valid, rest.invalid)
      else Selection.Checked(rest.valid, [files[0]] + rest.invalid)
  }

  predicate Refused(file: string)
  {
    !HasValidSuffix(file)
  }

  /** The two lists are the names with and without a supported ending, each
      in the original order. */
  lemma {:induction false} CheckFilesSplits(files: seq<string>)
    ensures CheckFiles(files).valid == PyList.Filter(files, HasValidSuffix)
    ensures CheckFiles(files).invalid == PyList.Filter(files, Refused)
  {
    if files != [] {
      CheckFilesSplits(files[1..]);
    }
  }

  lemma CheckFilesPartition(files: seq<string>)
    ensures multiset(CheckFiles(files).valid) + multiset(CheckFiles(files).invalid) == multiset(files)
  {
    CheckFilesSplits(files);
    PyList.FilterPartition(files, HasValidSuffix, Refused);
  }

  /** Any name ending in a supported extension is valid, whatever precedes
      it: unlike the current window, a bare `.png` or a name like
      `notes.png` that is a folder are accepted. */
  lemma EndingDecides(head: string, ext: string)
    requires ext in ValidTypes
    ensures HasValidSuffix(head + ext)
  {
    var file := head + ext;
    assert file[|file| - |ext|..] == ext;
    var r := LastChars(file, |ext|);
    assert r == ext;
    LowerAt(ext);
    assert Lower(ext) == ext;
  }

  // ---------------------------------------------------------------------
  // remove_dupes
  // ---------------------------------------------------------------------

  /** What the loop leaves: the files kept, in order, and the popped ones
      in the order they were popped. */
  datatype Scanned = Scanned(kept: seq<string>, duplicates: seq<string>)

  /** `remove_dupes` from the end of the selection towards its start,
      `seen` holding the base names met so far: a file whose base name was
      met is popped, so the last file of each base name stays. */
  function RemoveDupes(files: seq<string>, seen: set<string>): (r: Scanned)
    ensures |r.kept| + |r.duplicates| == |files|
  {
    if files == [] then Scanned([], [])
    else
      var last := files[|files| - 1];
      var name := Basename(last);
      if name in seen then
        var rest := RemoveDupes(files[..|files| - 1], seen);
        Scanned(rest.kept, [last] + rest.duplicates)
      else
        var rest := RemoveDupes(files[..|files| - 1], seen + {name});
        Scanned(rest.kept + [last], rest.duplicates)
  }

  /** Kept and popped files together are the selection. */
  lemma {:induction false} RemoveDupesSplits(files: seq<string>, seen: set<string>)
    ensures multiset(RemoveDupes(files, seen).kept) + multiset(RemoveDupes(files, seen).duplicates) == multiset(files)
  {
    if files != [] {
      var init, last := files[..|files| - 1], files[|files| - 1];
      assert files == init + [last];
      RemoveDupesSplits(init, if Basename(last) in seen then seen else seen + {Basename(last)});
    }
  }

  /** The kept base names are distinct and were not met before. */
  lemma {:induction false} RemoveDupesDistinct(files: seq<string>, seen: set<string>)
    ensures forall k :: 0 <= k < |RemoveDupes(files, seen).kept| ==> Basename(RemoveDupes(files, seen).kept[k]) !in seen
    ensures forall i, j :: 0 <= i < j < |RemoveDupes(files, seen).kept| ==>
              Basename(RemoveDupes(files, seen).kept[i]) != Basename(RemoveDupes(files, seen).kept[j])
  {
    if files != [] {
      var init, last := files[..|files| - 1], files[|files| - 1];
      var name := Basename(last);
      if name in seen {
        RemoveDupesDistinct(init, seen);
      } else {
        var rest := RemoveDupes(init, seen + {name}).kept;
        RemoveDupesDistinct(init, seen + {name});
        var kept := rest + [last];
        assert kept == RemoveDupes(files, seen).kept;
        assert forall k :: 0 <= k < |rest| ==> kept[k] == rest[k];
      }
    }
  }

  /** Some kept file has the base name `name`. */
  predicate NameIn(kept: seq<string>, name: string)
  {
    exists k :: 0 <= k < |kept| && Basename(kept[k]) == name
  }

  /** A base name not met before survives in some kept file. */
  lemma {:induction false} CoversOne(files: seq<string>, seen: set<string>, x: string)
    requires x in files && Basename(x) !in seen
    ensures NameIn(RemoveDupes(files, seen).kept, Basename(x))
    decreases |files|
  {
    var init, last := files[..|files| - 1], files[|files| - 1];
    var name := Basename(last);
    assert files == init + [last];
    var kept := RemoveDupes(files, seen).kept;
    if name in seen {
      assert x != last;
      assert x in init;
      CoversOne(init, seen, x);
      assert kept == RemoveDupes(init, seen).kept;
    } else {
      var rest := RemoveDupes(init, seen + {name}).kept;
      assert kept == rest + [last];
      if Basename(x) == name {
        assert Basename(kept[|kept| - 1]) == Basename(x);
      } else {
        assert x in init;
        CoversOne(init, seen + {name}, x);
        var k :| 0 <= k < |rest| && Basename(rest[k]) == Basename(x);
        assert kept[k] == rest[k];
      }
    }
  }

  /** Every base name not met before survives in some kept file. */
  lemma RemoveDupesCovers(files: seq<string>, seen: set<string>)
    ensures forall x :: x in files && Basename(x) !in seen ==> NameIn(RemoveDupes(files, seen).kept, Basename(x))
  {
    forall x | x in files && Basename(x) !in seen
      ensures NameIn(RemoveDupes(files, seen).kept, Basename(x))
    {
      CoversOne(files, seen, x);
    }
  }

  /** Of two files with the same name in different folders, the later one
      stays and the earlier one is reported as the duplicate. */
  lemma KeepsLast(dirA: string, dirB: string, name: string)
    requires dirA != [] && dirA[|dirA| - 1] == '/' && dirB != [] && dirB[|dirB| - 1] == '/'
    requires Free(name, '/')
    ensures RemoveDupes([dirA + name, dirB + name], {}) == Scanned([dirB + name], [dirA + name])
  {
    BasenameAfter(dirA, name);
    BasenameAfter(dirB, name);
    assert [dirA + name, dirB + name][..1] == [dirA + name];
    assert [dirA + name][..0] == [];
  }

  // ---------------------------------------------------------------------
  // insert_breaks / remove_breaks
  // ---------------------------------------------------------------------

  /** The loop of `insert_breaks` over the rows of texts `grab_schedule`
      stored: an image cell that reads exactly `'0'` inserts the marker at
      the running index, any other is added to it with `int()`. A row
      without an image column or a text `int()` refuses raises (`None`). */
  function InsertFrom(schedule: seq<seq<string>>, files: seq<string>, index: int): (r: Option<seq<string>>)
    decreases |schedule|
  {
    if schedule == [] then Some(files)
    else if |schedule[0]| < 2 then None
    else if schedule[0][1] == "0" then
      InsertFrom(schedule[1..], PyList.Insert(files, index, Schedule.BreakMarker), index)
    else
      match ParseInt(schedule[0][1])
      case None => None
      case Some(n) => InsertFrom(schedule[1..], files, index + n)
  }

  function InsertBreaks(hasBreak: bool, schedule: seq<seq<string>>, files: seq<string>): Option<seq<string>>
  {
    if hasBreak then InsertFrom(schedule, files, 0) else Some(files)
  }

  /** The rows of texts the table shows for a schedule. */
  predicate Shows(schedule: seq<seq<string>>, s: seq<Schedule.Entry>)
  {
    |schedule| == |s| &&
    forall k :: 0 <= k < |s| ==> |schedule[k]| >= 2 && schedule[k][1] == IntToStr(s[k].images)
  }

  /** `str(n)` reads `'0'` only for zero. */
  lemma ZeroText(n: int)
    ensures IntToStr(n) == "0" <==> n == 0
  {
    IntToStrRoundTrip(n);
    IntToStrRoundTrip(0);
  }

  /** The image texts read as the schedule's counts, and read `'0'`
      exactly for the break entries. */
  predicate Reads(schedule: seq<seq<string>>, s: seq<Schedule.Entry>)
  {
    |schedule| == |s| &&
    forall k :: 0 <= k < |s| ==>
      |schedule[k]| >= 2 && (schedule[k][1] == "0" <==> s[k].images == 0) &&
      ParseInt(schedule[k][1]) == Some(s[k].images)
  }

  lemma ShowsReads(schedule: seq<seq<string>>, s: seq<Schedule.Entry>)
    requires Shows(schedule, s)
    ensures Reads(schedule, s)
  {
    forall k | 0 <= k < |s|
      ensures (schedule[k][1] == "0" <==> s[k].images == 0) && ParseInt(schedule[k][1]) == Some(s[k].images)
    {
      ZeroText(s[k].images);
      IntToStrRoundTrip(s[k].images);
    }
  }

  /** Where the texts read as the counts, the old loop inserts exactly where
      the current one does, with the same running offset. */
  lemma {:induction false} InsertAgreesFrom(schedule: seq<seq<string>>, s: seq<Schedule.Entry>, files: seq<string>, index: int)
    requires Reads(schedule, s)
    ensures InsertFrom(schedule, files, index) == Some(Schedule.InsertFrom(s, files, index))
    decreases |s|
  {
    if s == [] {
      assert schedule == [];
    } else {
      InsertStep(schedule, s, files, index);
      var files', index' := if s[0].images == 0 then PyList.Insert(files, index, Schedule.BreakMarker) else files,
                            if s[0].images == 0 then index else index + s[0].images;
      InsertAgreesFrom(schedule[1..], s[1..], files', index');
      assert InsertFrom(schedule, files, index) == InsertFrom(schedule[1..], files', index');
      assert Schedule.InsertFrom(s, files, index) == Schedule.InsertFrom(s[1..], files', index');
    }
  }

  /** One row of both loops: the first row's text decides as its count
      does, and the rest of the rows still read as the rest of the
      schedule. */
  lemma InsertStep(schedule: seq<seq<string>>, s: seq<Schedule.Entry>, files: seq<string>, index: int)
    requires Reads(schedule, s) && s != []
    ensures Reads(schedule[1..], s[1..])
    ensures s[0].images == 0 ==>
              InsertFrom(schedule, files, index) == InsertFrom(schedule[1..], PyList.Insert(files, index, Schedule.BreakMarker), index) &&
              Schedule.InsertFrom(s, files, index) == Schedule.InsertFrom(s[1..], PyList.Insert(files, index, Schedule.BreakMarker), index)
    ensures s[0].images != 0 ==>
              InsertFrom(schedule, files, index) == InsertFrom(schedule[1..], files, index + s[0].images) &&
              Schedule.InsertFrom(s, files, index) == Schedule.InsertFrom(s[1..], files, index + s[0].images)
  {
    assert forall k :: 0 <= k < |s[1..]| ==> schedule[1..][k] == schedule[k + 1] && s[1..][k] == s[k + 1];
  }

  /** On a table written from numbers the old `insert_breaks` gives what the
      current one gives. */
  lemma InsertAgrees(hasBreak: bool, schedule: seq<seq<string>>, s: seq<Schedule.Entry>, files: seq<string>)
    requires Shows(schedule, s)
    ensures InsertBreaks(hasBreak, schedule, files) == Some(Schedule.InsertBreaks(hasBreak, s, files))
  {
    ShowsReads(schedule, s);
    InsertAgreesFrom(schedule, s, files, 0);
  }

  /** An image cell like `'00'` or `' 0'` reads as zero but inserts no
      break: only the exact text `'0'` does. */
  lemma PaddedZeroInsertsNothing(files: seq<string>)
    ensures InsertFrom([["1", "00", "30"]], files, 0) == Some(files)
  {
    var t := "00";
    assert t != "0";
    assert Strip(t) == t by {
      StripOfUnpadded(t);
    }
    assert ParseUnsigned(t) == Some(0) by {
      ScanAllDigits(t, 0, false);
    }
    assert [["1", "00", "30"]][1..] == [];
  }

  /** A file the user named `break.png` counts as a break marker. */
  predicate NamedBreak(file: string)
  {
    Basename(file) == "break.png"
  }

  predicate Kept(file: string)
  {
    !NamedBreak(file)
  }

  /** `remove_breaks`: pop every file whose base name is `break.png`; the
      others keep their order. */
  function RemoveBreaks(files: seq<string>): (r: seq<string>)
    ensures forall k :: 0 <= k < |r| ==> Basename(r[k]) != "break.png"
    ensures |r| <= |files|
  {
    PyList.Filter(files, Kept)
  }

  /** The marker itself and any user file called `break.png` go. */
  lemma RemovesNamedBreaks(dir: string)
    requires dir != [] && dir[|dir| - 1] == '/'
    ensures NamedBreak(Schedule.BreakMarker)
    ensures NamedBreak(dir + "break.png")
  {
    BasenameAfter(":/break/", "break.png");
    assert Schedule.BreakMarker == ":/break/" + "break.png";
    BasenameAfter(dir, "break.png");
  }

  /** Removing the breaks undoes one insertion of the marker. */
  lemma RemoveAfterInsert(files: seq<string>, index: int)
    ensures RemoveBreaks(PyList.Insert(files, index, Schedule.BreakMarker)) == RemoveBreaks(files)
  {
    RemovesNamedBreaks("/");
    var j := PyList.InsertIndex(|files|, index);
    var a, b := files[..j], files[j..];
    assert PyList.Insert(files, index, Schedule.BreakMarker) == a + ([Schedule.BreakMarker] + b);
    PyList.FilterAppend(a, [Schedule.BreakMarker] + b, Kept);
    PyList.FilterAppend([Schedule.BreakMarker], b, Kept);
    assert PyList.Filter([Schedule.BreakMarker], Kept) == [];
    PyList.FilterAppend(a, b, Kept);
    assert a + b == files;
  }

  lemma {:induction false} RemoveAfterInsertFrom(schedule: seq<seq<string>>, files: seq<string>, index: int)
    requires InsertFrom(schedule, files, index).Some?
    ensures RemoveBreaks(InsertFrom(schedule, files, index).value) == RemoveBreaks(files)
    decreases |schedule|
  {
    if schedule != [] {
      assert |schedule[0]| >= 2;
      if schedule[0][1] == "0" {
        var next := PyList.Insert(files, index, Schedule.BreakMarker);
        assert InsertFrom(schedule, files, index) == InsertFrom(schedule[1..], next, index);
        RemoveAfterInsert(files, index);
        RemoveAfterInsertFrom(schedule[1..], next, index);
      } else {
        assert ParseInt(schedule[0][1]).Some?;
        var next := index + ParseInt(schedule[0][1]).value;
        assert InsertFrom(schedule, files, index) == InsertFrom(schedule[1..], files, next);
        RemoveAfterInsertFrom(schedule[1..], files, next);
      }
    }
  }

  /** On a selection without files named `break.png`, removing the breaks
      undoes inserting them. */
  lemma RemoveUndoesInsert(hasBreak: bool, schedule: seq<seq<string>>, files: seq<string>)
    requires forall k :: 0 <= k < |files| ==> Kept(files[k])
    requires InsertBreaks(hasBreak, schedule, files).Some?
    ensures RemoveBreaks(InsertBreaks(hasBreak, schedule, files).value) == files
  {
    if hasBreak {
      RemoveAfterInsertFrom(schedule, files, 0);
    }
    PyList.FilterAllKept(files, Kept);
  }

  // ---------------------------------------------------------------------
  // grab_schedule
  // ---------------------------------------------------------------------

  /** What `grab_schedule` leaves: the rows of texts read so far (the last
      one possibly short), the `has_break` flag, and whether every cell was
      read (a missing item raises `AttributeError`). */
  datatype Grabbed = Grabbed(schedule: seq<seq<string>>, hasBreak: bool, ok: bool)

  /** The cells of one row, in column order. */
  function Cells(row: Table.Row): seq<Table.Cell>
  {
    [row.number, row.images, row.duration]
  }

  /** Read the cells of one row until a missing one. */
  function ReadCells(cells: seq<Table.Cell>, hasBreak: bool): (r: Grabbed)
    ensures |r.schedule| == 1 && |r.schedule[0]| <= |cells|
    ensures r.ok <==> forall c :: 0 <= c < |cells| ==> cells[c].Some?
    ensures r.ok ==> |r.schedule[0]| == |cells|
    ensures forall c :: 0 <= c < |r.schedule[0]| ==> cells[c] == Some(r.schedule[0][c])
    ensures r.hasBreak <==> hasBreak || "0" in r.schedule[0]
  {
    if cells == [] then Grabbed([[]], hasBreak, true)
    else if cells[0].None? then Grabbed([[]], hasBreak, false)
    else
      var rest := ReadCells(cells[1..], hasBreak || cells[0].value == "0");
      var row := [cells[0].value] + rest.schedule[0];
      assert forall c :: 1 <= c < |row| ==> row[c] == rest.schedule[0][c - 1];
      assert "0" in row <==> cells[0].value == "0" || "0" in rest.schedule[0];
      Grabbed([row], rest.hasBreak, rest.ok)
  }

  predicate Filled(row: Table.Row)
  {
    row.number.Some? && row.images.Some? && row.duration.Some?
  }

  /** `grab_schedule` over all rows: the rows of texts read, stopping at the
      first missing cell. */
  function GrabSchedule(rows: seq<Table.Row>, hasBreak: bool): (r: Grabbed)
    ensures |r.schedule| <= |rows|
    ensures forall i :: 0 <= i < |r.schedule| ==> |r.schedule[i]| <= 3
    decreases |rows|
  {
    if rows == [] then Grabbed([], hasBreak, true)
    else
      var first := ReadCells(Cells(rows[0]), hasBreak);
      if !first.ok then first
      else
        var rest := GrabSchedule(rows[1..], first.hasBreak);
        Grabbed(first.schedule + rest.schedule, rest.hasBreak, rest.ok)
  }

  lemma FirstRowFilled(row: Table.Row, hasBreak: bool)
    ensures ReadCells(Cells(row), hasBreak).ok <==> Filled(row)
  {
    var cs := Cells(row);
    assert cs[0] == row.number && cs[1] == row.images && cs[2] == row.duration;
  }

  /** Reading succeeds exactly when every row is filled, and then every row
      is read. */
  lemma {:induction false} GrabScheduleOk(rows: seq<Table.Row>, hasBreak: bool)
    ensures GrabSchedule(rows, hasBreak).ok <==> forall i :: 0 <= i < |rows| ==> Filled(rows[i])
    ensures GrabSchedule(rows, hasBreak).ok ==> |GrabSchedule(rows, hasBreak).schedule| == |rows|
    decreases |rows|
  {
    if rows != [] {
      FirstRowFilled(rows[0], hasBreak);
      var first := ReadCells(Cells(rows[0]), hasBreak);
      if first.ok {
        GrabScheduleOk(rows[1..], first.hasBreak);
        assert forall i :: 1 <= i < |rows| ==> rows[i] == rows[1..][i - 1];
      }
    }
  }

  /** Every text read is the cell at its row and column. */
  lemma {:induction false} GrabScheduleCells(rows: seq<Table.Row>, hasBreak: bool)
    ensures forall i, c :: 0 <= i < |GrabSchedule(rows, hasBreak).schedule| && 0 <= c < |GrabSchedule(rows, hasBreak).schedule[i]| ==>
              Cells(rows[i])[c] == Some(GrabSchedule(rows, hasBreak).schedule[i][c])
    decreases |rows|
  {
    if rows != [] {
      var first := ReadCells(Cells(rows[0]), hasBreak);
      if first.ok {
        var rest := GrabSchedule(rows[1..], first.hasBreak);
        GrabScheduleCells(rows[1..], first.hasBreak);
        var r := GrabSchedule(rows, hasBreak);
        assert r.schedule == first.schedule + rest.schedule;
        assert forall i :: 1 <= i < |r.schedule| ==> r.schedule[i] == rest.schedule[i - 1] && rows[i] == rows[1..][i - 1];
      }
    }
  }

  /** Any cell reading `'0'`, in any column, sets `has_break`, and nothing
      clears it. */
  lemma {:induction false} GrabScheduleBreak(rows: seq<Table.Row>, hasBreak: bool)
    ensures GrabSchedule(rows, hasBreak).hasBreak <==>
              hasBreak || exists i :: 0 <= i < |GrabSchedule(rows, hasBreak).schedule| && "0" in GrabSchedule(rows, hasBreak).schedule[i]
    decreases |rows|
  {
    if rows != [] {
      var first := ReadCells(Cells(rows[0]), hasBreak);
      if first.ok {
        var rest := GrabSchedule(rows[1..], first.hasBreak);
        GrabScheduleBreak(rows[1..], first.hasBreak);
        var r := GrabSchedule(rows, hasBreak);
        assert r.schedule == first.schedule + rest.schedule;
        assert r.schedule[0] == first.schedule[0];
        assert (exists i :: 0 <= i < |r.schedule| && "0" in r.schedule[i]) <==>
               "0" in first.schedule[0] || exists i :: 0 <= i < |rest.schedule| && "0" in rest.schedule[i] by {
          if i :| 0 <= i < |rest.schedule| && "0" in rest.schedule[i] {
            assert "0" in r.schedule[i + 1];
          }
          if i :| 0 <= i < |r.schedule| && "0" in r.schedule[i] {
            if i > 0 {
              assert r.schedule[i] == rest.schedule[i - 1];
            }
          }
        }
      }
    }
  }

  // ---------------------------------------------------------------------
  // update_total
  // ---------------------------------------------------------------------

  /** What `update_total` shows: the image total once its loop read every
      image cell, and the time total once the second loop read every
      duration as well. */
  datatype Totals = Totals(images: Option<int>, time: Option<int>)

  /** The first loop: the image cells. */
  function ImagesSum(rows: seq<Table.Row>): Option<int>
  {
    if rows == [] then Some(0)
    else
      match (Table.CellInt(rows[0].images), ImagesSum(rows[1..]))
      case (Some(n), Some(m)) => Some(n + m)
      case _ => None
  }

  /** The second loop: each entry's seconds. */
  function TimeSum(rows: seq<Table.Row>): Option<int>
  {
    if rows == [] then Some(0)
    else if !Table.Parses(rows[0]) then None
    else
      var e := Schedule.Entry(Table.CellInt(rows[0].images).value, Table.CellInt(rows[0].duration).value);
      match TimeSum(rows[1..])
      case None => None
      case Some(t) => Some(Table.EntrySeconds(e) + t)
  }

  function UpdateTotal(rows: seq<Table.Row>): (r: Totals)
    ensures r.time.Some? ==> r.images.Some?
  {
    match ImagesSum(rows)
    case None => Totals(None, None)
    case Some(i) => Totals(Some(i), TimeSum(rows))
  }

  /** Where every cell reads, both totals are those of the current window;
      the old loop also shows them when the last row is unfinished, which
      the current window refuses, and shows the image total alone when
      only durations are missing. */
  lemma {:induction false} UpdateTotalAgrees(rows: seq<Table.Row>)
    ensures UpdateTotal(rows).time.Some? <==> Table.Sums(rows).Some?
    ensures Table.Sums(rows).Some? ==>
              UpdateTotal(rows) == Totals(Some(Table.Sums(rows).value.0), Some(Table.Sums(rows).value.1))
    ensures (forall i :: 0 <= i < |rows| ==> Table.CellInt(rows[i].images).Some?) ==> UpdateTotal(rows).images.Some?
  {
    if rows != [] {
      UpdateTotalAgrees(rows[1..]);
    }
  }
}
