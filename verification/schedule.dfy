/** The session schedule the main window hands to the player, the break
    markers that `insert_breaks` / `remove_breaks` put into and take out of
    the playlist, and the `HH:MM:SS` text of a total duration. */
module Schedule {
  import opened Maybe
  import opened PyText
  import PyList

  /** The playlist item that stands for a break. */
  const BreakMarker: string := ":/break/break.png"

  /** One schedule row: how many images to show, and for how many seconds
      each is shown. A row with no images is a break. */
  datatype Entry = Entry(images: int, time: int)

  predicate NonNegative(s: seq<Entry>)
  {
    forall k :: 0 <= k < |s| ==> s[k].images >= 0
  }

  function BreakCount(s: seq<Entry>): (n: nat)
    ensures n <= |s|
  {
    if s == [] then 0
    else (if s[0].images == 0 then 1 else 0) + BreakCount(s[1..])
  }

  /** Images scheduled by the entries before entry `k`. */
  function ImagesBefore(s: seq<Entry>, k: nat): int
    requires k <= |s|
  {
    if k == 0 then 0 else s[0].images + ImagesBefore(s[1..], k - 1)
  }

  /** The `total_scheduled_images` that `is_valid_session` adds up. */
  function TotalImages(s: seq<Entry>): int
  {
    ImagesBefore(s, |s|)
  }

  lemma {:induction false} ImagesBeforeBounds(s: seq<Entry>, k: nat)
    requires k <= |s| && NonNegative(s)
    ensures 0 <= ImagesBefore(s, k) <= TotalImages(s)
    ensures k < |s| ==> ImagesBefore(s, k) + s[k].images <= TotalImages(s)
  {
    if k > 0 {
      ImagesBeforeBounds(s[1..], k - 1);
    } else if s != [] {
      ImagesBeforeBounds(s[1..], 0);
    }
  }

  // ---------------------------------------------------------------------
  // insert_breaks as written
  // ---------------------------------------------------------------------

  /** The loop of `insert_breaks` from running offset `index`: a break entry
      inserts a marker at the offset and leaves it where it is, any other
      entry moves it on by its image count. Markers already inserted are not
      counted. */
  function InsertFrom(s: seq<Entry>, files: seq<string>, index: int): (r: seq<string>)
    ensures |r| == |files| + BreakCount(s)
    decreases |s|
  {
    if s == [] then files
    else if s[0].images == 0 then InsertFrom(s[1..], PyList.Insert(files, index, BreakMarker), index)
    else InsertFrom(s[1..], files, index + s[0].images)
  }

  /** One marker per break entry is added, and nothing else. */
  lemma {:induction false} InsertFromCounts(s: seq<Entry>, files: seq<string>, index: int)
    ensures forall x :: x != BreakMarker ==> multiset(InsertFrom(s, files, index))[x] == multiset(files)[x]
    ensures multiset(InsertFrom(s, files, index))[BreakMarker] == multiset(files)[BreakMarker] + BreakCount(s)
    decreases |s|
  {
    if s != [] {
      if s[0].images == 0 {
        var next := PyList.Insert(files, index, BreakMarker);
        PyList.InsertCounts(files, index, BreakMarker);
        InsertFromCounts(s[1..], next, index);
        assert InsertFrom(s, files, index) == InsertFrom(s[1..], next, index);
        assert BreakCount(s) == 1 + BreakCount(s[1..]);
        OneMoreMarker(files, next, InsertFrom(s[1..], next, index), BreakCount(s[1..]));
      } else {
        InsertFromCounts(s[1..], files, index + s[0].images);
        assert InsertFrom(s, files, index) == InsertFrom(s[1..], files, index + s[0].images);
        assert BreakCount(s) == BreakCount(s[1..]);
      }
    }
  }

  /** Counts carried through one inserted marker. */
  lemma OneMoreMarker(files: seq<string>, next: seq<string>, out: seq<string>, n: nat)
    requires multiset(next) == multiset(files) + multiset{BreakMarker}
    requires forall x :: x != BreakMarker ==> multiset(out)[x] == multiset(next)[x]
    requires multiset(out)[BreakMarker] == multiset(next)[BreakMarker] + n
    ensures forall x :: x != BreakMarker ==> multiset(out)[x] == multiset(files)[x]
    ensures multiset(out)[BreakMarker] == multiset(files)[BreakMarker] + n + 1
  {
  }

  /** `insert_breaks`: nothing happens unless the `has_break` flag is set. */
  function InsertBreaks(hasBreak: bool, s: seq<Entry>, files: seq<string>): (r: seq<string>)
    ensures |r| == |files| + (if hasBreak then BreakCount(s) else 0)
    ensures forall x :: x != BreakMarker ==> multiset(r)[x] == multiset(files)[x]
    ensures multiset(r)[BreakMarker]
            == multiset(files)[BreakMarker] + (if hasBreak then BreakCount(s) else 0)
  {
    InsertFromCounts(s, files, 0);
    if hasBreak then InsertFrom(s, files, 0) else files
  }

  /** A stale `has_break` flag is harmless: without a break entry nothing is
      inserted. */
  lemma {:induction false} InsertWithoutBreakEntries(s: seq<Entry>, files: seq<string>, index: int)
    requires forall k :: 0 <= k < |s| ==> s[k].images != 0
    ensures InsertFrom(s, files, index) == files
    decreases |s|
  {
    if s != [] {
      assert s[0].images != 0;
      InsertWithoutBreakEntries(s[1..], files, index + s[0].images);
    }
  }

  /** Inserting a marker at or after position `p` keeps a marker at `p`. */
  lemma {:induction false} InsertFromKeepsMarker(s: seq<Entry>, files: seq<string>, index: int, p: nat)
    requires NonNegative(s)
    requires p < |files| && p <= index && files[p] == BreakMarker
    ensures p < |InsertFrom(s, files, index)|
    ensures InsertFrom(s, files, index)[p] == BreakMarker
    decreases |s|
  {
    if s != [] {
      assert NonNegative(s[1..]) by {
        assert forall k :: 0 <= k < |s| - 1 ==> s[1..][k] == s[k + 1];
      }
      if s[0].images == 0 {
        var next := PyList.Insert(files, index, BreakMarker);
        var j := PyList.InsertIndex(|files|, index);
        assert next[p] == BreakMarker by {
          if p < j {
            assert next[..j][p] == files[..j][p];
          }
        }
        InsertFromKeepsMarker(s[1..], next, index, p);
      } else {
        InsertFromKeepsMarker(s[1..], files, index + s[0].images, p);
      }
    }
  }

  /** Where `insert_breaks` leaves the marker of break entry `k`: at the
      offset plus the images of the entries before it, however many markers
      precede it. */
  lemma {:induction false} InsertFromPositions(s: seq<Entry>, files: seq<string>, index: int, k: nat)
    requires NonNegative(s)
    requires 0 <= index && index + TotalImages(s) <= |files|
    requires k < |s| && s[k].images == 0
    ensures 0 <= index + ImagesBefore(s, k) < |InsertFrom(s, files, index)|
    ensures InsertFrom(s, files, index)[index + ImagesBefore(s, k)] == BreakMarker
    decreases |s|
  {
    assert NonNegative(s[1..]) by {
      assert forall j :: 0 <= j < |s| - 1 ==> s[1..][j] == s[j + 1];
    }
    ImagesBeforeBounds(s[1..], |s| - 1);
    if s[0].images == 0 {
      var next := PyList.Insert(files, index, BreakMarker);
      if k == 0 {
        InsertFromKeepsMarker(s[1..], next, index, index);
      } else {
        InsertFromPositions(s[1..], next, index, k - 1);
      }
    } else {
      InsertFromPositions(s[1..], files, index + s[0].images, k - 1);
    }
  }

  lemma WrittenMarkerPositions(s: seq<Entry>, files: seq<string>, k: nat)
    requires NonNegative(s) && TotalImages(s) <= |files|
    requires k < |s| && s[k].images == 0
    ensures 0 <= ImagesBefore(s, k) < |InsertBreaks(true, s, files)|
    ensures InsertBreaks(true, s, files)[ImagesBefore(s, k)] == BreakMarker
  {
    InsertFromPositions(s, files, 0, k);
  }

  // ---------------------------------------------------------------------
  // remove_breaks
  // ---------------------------------------------------------------------

  predicate NotMarker(x: string) { x != BreakMarker }

  /** `remove_breaks`: the playlist without its markers, in order. */
  function RemoveBreaks(files: seq<string>): (r: seq<string>)
    ensures forall k :: 0 <= k < |r| ==> r[k] != BreakMarker
    ensures multiset(r)[BreakMarker] == 0
    ensures forall x :: x != BreakMarker ==> multiset(r)[x] == multiset(files)[x]
  {
    PyList.FilterCounts(files, NotMarker);
    PyList.Filter(files, NotMarker)
  }

  /** The loop of `remove_breaks`: walk from the end and pop every marker. */
  method RemoveBreaksLoop(files: seq<string>) returns (r: seq<string>)
    ensures r == RemoveBreaks(files)
  {
    r := files;
    var i := |files|;
    while i > 0
      invariant 0 <= i <= |files|
      invariant r == files[..i] + PyList.Filter(files[i..], NotMarker)
    {
      i := i - 1;
      PopStep(files, i, r);
      if r[i] == BreakMarker {
        r := r[..i] + r[i + 1..];
      }
    }
    assert files[..0] == [] && files[0..] == files;
  }

  /** One step of the loop: popping the element at `i` when it is a marker
      extends the filtered suffix by one. */
  lemma PopStep(files: seq<string>, i: nat, r: seq<string>)
    requires i < |files|
    requires r == files[..i + 1] + PyList.Filter(files[i + 1..], NotMarker)
    ensures i < |r| && r[i] == files[i]
    ensures (if r[i] == BreakMarker then r[..i] + r[i + 1..] else r)
            == files[..i] + PyList.Filter(files[i..], NotMarker)
  {
    var tail := PyList.Filter(files[i + 1..], NotMarker);
    assert files[i..][0] == files[i] && files[i..][1..] == files[i + 1..];
    assert r == files[..i] + [files[i]] + tail by {
      assert files[..i + 1] == files[..i] + [files[i]];
    }
    assert r[..i] == files[..i] && r[i + 1..] == tail;
  }

  lemma RemoveBreaksOfFree(files: seq<string>)
    requires forall k :: 0 <= k < |files| ==> files[k] != BreakMarker
    ensures RemoveBreaks(files) == files
  {
    PyList.FilterAllKept(files, NotMarker);
  }

  lemma RemoveAfterInsert(files: seq<string>, index: int)
    ensures RemoveBreaks(PyList.Insert(files, index, BreakMarker)) == RemoveBreaks(files)
  {
    var j := PyList.InsertIndex(|files|, index);
    var a, b := files[..j], files[j..];
    assert PyList.Insert(files, index, BreakMarker) == a + ([BreakMarker] + b);
    PyList.FilterAppend(a, [BreakMarker] + b, NotMarker);
    PyList.FilterAppend([BreakMarker], b, NotMarker);
    assert PyList.Filter([BreakMarker], NotMarker) == [];
    PyList.FilterAppend(a, b, NotMarker);
    assert a + b == files;
  }

  lemma {:induction false} RemoveAfterInsertFrom(s: seq<Entry>, files: seq<string>, index: int)
    ensures RemoveBreaks(InsertFrom(s, files, index)) == RemoveBreaks(files)
    decreases |s|
  {
    if s != [] {
      if s[0].images == 0 {
        var next := PyList.Insert(files, index, BreakMarker);
        RemoveAfterInsert(files, index);
        RemoveAfterInsertFrom(s[1..], next, index);
        assert InsertFrom(s, files, index) == InsertFrom(s[1..], next, index);
      } else {
        RemoveAfterInsertFrom(s[1..], files, index + s[0].images);
        assert InsertFrom(s, files, index) == InsertFrom(s[1..], files, index + s[0].images);
      }
    }
  }

  /** `remove_breaks` undoes `insert_breaks` on a playlist without markers. */
  lemma RemoveUndoesInsert(hasBreak: bool, s: seq<Entry>, files: seq<string>)
    requires forall k :: 0 <= k < |files| ==> files[k] != BreakMarker
    ensures RemoveBreaks(InsertBreaks(hasBreak, s, files)) == files
  {
    if hasBreak {
      RemoveAfterInsertFrom(s, files, 0);
    }
    RemoveBreaksOfFree(files);
  }

  // ---------------------------------------------------------------------
  // The intended layout
  // ---------------------------------------------------------------------

  /** Playlist slots an entry occupies: its images, or one for a break. */
  function Slots(e: Entry): int
  {
    if e.images == 0 then 1 else e.images
  }

  /** The playlist position at which entry `k` starts when every earlier
      entry occupies its slots. */
  function EntryStart(s: seq<Entry>, k: nat): int
    requires k <= |s|
  {
    if k == 0 then 0 else Slots(s[0]) + EntryStart(s[1..], k - 1)
  }

  /** The playlist the player walks through: every entry takes its images
      from `files` in turn, and a break entry takes a marker instead. */
  function Layout(s: seq<Entry>, files: seq<string>): (r: seq<string>)
    requires NonNegative(s) && TotalImages(s) <= |files|
    ensures |r| == |files| + BreakCount(s)
    decreases |s|
  {
    if s == [] then files
    else
      assert NonNegative(s[1..]) by {
        assert forall k :: 0 <= k < |s| - 1 ==> s[1..][k] == s[k + 1];
      }
      ImagesBeforeBounds(s[1..], |s| - 1);
      if s[0].images == 0 then [BreakMarker] + Layout(s[1..], files)
      else files[..s[0].images] + Layout(s[1..], files[s[0].images..])
  }

  /** Entry `k` of the layout: a marker at its start for a break, and its
      own run of files otherwise. */
  lemma {:induction false} LayoutPositions(s: seq<Entry>, files: seq<string>, k: nat, j: int)
    requires NonNegative(s) && TotalImages(s) <= |files|
    requires k < |s| && 0 <= j < Slots(s[k])
    ensures 0 <= EntryStart(s, k) + j < |Layout(s, files)|
    ensures s[k].images == 0 ==> Layout(s, files)[EntryStart(s, k) + j] == BreakMarker
    ensures s[k].images != 0 ==>
              0 <= ImagesBefore(s, k) + j < |files| &&
              Layout(s, files)[EntryStart(s, k) + j] == files[ImagesBefore(s, k) + j]
    decreases |s|, 1
  {
    LayoutStep(s, files);
    if k == 0 {
      ImagesBeforeBounds(s, 0);
    } else if s[0].images == 0 {
      PositionAfterBreak(s, files, k, j);
    } else {
      PositionAfterImages(s, files, k, j);
    }
  }

  lemma {:induction false} PositionAfterBreak(s: seq<Entry>, files: seq<string>, k: nat, j: int)
    requires NonNegative(s) && TotalImages(s) <= |files|
    requires 0 < k < |s| && 0 <= j < Slots(s[k]) && s[0].images == 0
    ensures 0 <= EntryStart(s, k) + j < |Layout(s, files)|
    ensures s[k].images == 0 ==> Layout(s, files)[EntryStart(s, k) + j] == BreakMarker
    ensures s[k].images != 0 ==>
              0 <= ImagesBefore(s, k) + j < |files| &&
              Layout(s, files)[EntryStart(s, k) + j] == files[ImagesBefore(s, k) + j]
    decreases |s|, 0
  {
    LayoutStep(s, files);
    StartStep(s, k);
    assert s[1..][k - 1] == s[k];
    LayoutPositions(s[1..], files, k - 1, j);
  }

  /** Where entry `k > 0` starts, counted from the second entry. */
  lemma StartStep(s: seq<Entry>, k: nat)
    requires 0 < k <= |s|
    ensures EntryStart(s, k) == Slots(s[0]) + EntryStart(s[1..], k - 1)
    ensures ImagesBefore(s, k) == s[0].images + ImagesBefore(s[1..], k - 1)
  {
  }

  lemma {:induction false} PositionAfterImages(s: seq<Entry>, files: seq<string>, k: nat, j: int)
    requires NonNegative(s) && TotalImages(s) <= |files|
    requires 0 < k < |s| && 0 <= j < Slots(s[k]) && s[0].images > 0
    ensures 0 <= EntryStart(s, k) + j < |Layout(s, files)|
    ensures s[k].images == 0 ==> Layout(s, files)[EntryStart(s, k) + j] == BreakMarker
    ensures s[k].images != 0 ==>
              0 <= ImagesBefore(s, k) + j < |files| &&
              Layout(s, files)[EntryStart(s, k) + j] == files[ImagesBefore(s, k) + j]
    decreases |s|, 0
  {
    LayoutStep(s, files);
    StartStep(s, k);
    var n := s[0].images;
    var rest := files[n..];
    var L1 := Layout(s[1..], rest);
    var p1 := EntryStart(s[1..], k - 1) + j;
    assert s[1..][k - 1] == s[k];
    LayoutPositions(s[1..], rest, k - 1, j);
    assert Layout(s, files)[n + p1] == L1[p1];
    if s[k].images != 0 {
      var q1 := ImagesBefore(s[1..], k - 1) + j;
      assert ImagesBefore(s, k) + j == n + q1;
      assert rest[q1] == files[n + q1];
    }
  }

  /** The first entry of a layout, and what the rest of it is laid out from. */
  lemma LayoutStep(s: seq<Entry>, files: seq<string>)
    requires NonNegative(s) && TotalImages(s) <= |files| && s != []
    ensures NonNegative(s[1..]) && 0 <= s[0].images <= |files|
    ensures TotalImages(s) == s[0].images + TotalImages(s[1..])
    ensures TotalImages(s[1..]) <= |files| - s[0].images
    ensures s[0].images == 0 ==> Layout(s, files) == [BreakMarker] + Layout(s[1..], files)
    ensures s[0].images != 0 ==>
              TotalImages(s[1..]) <= |files[s[0].images..]| &&
              Layout(s, files) == files[..s[0].images] + Layout(s[1..], files[s[0].images..])
  {
    assert NonNegative(s[1..]) by {
      assert forall i :: 0 <= i < |s| - 1 ==> s[1..][i] == s[i + 1];
    }
    ImagesBeforeBounds(s[1..], |s| - 1);
  }

  /** `insert_breaks` as it was meant to work: the running offset also
      steps over the marker just inserted. */
  function InsertIntendedFrom(s: seq<Entry>, files: seq<string>, index: int): (r: seq<string>)
    ensures |r| == |files| + BreakCount(s)
    decreases |s|
  {
    if s == [] then files
    else if s[0].images == 0 then InsertIntendedFrom(s[1..], PyList.Insert(files, index, BreakMarker), index + 1)
    else InsertIntendedFrom(s[1..], files, index + s[0].images)
  }

  function InsertBreaksIntended(hasBreak: bool, s: seq<Entry>, files: seq<string>): (r: seq<string>)
    ensures |r| == |files| + (if hasBreak then BreakCount(s) else 0)
  {
    if hasBreak then InsertIntendedFrom(s, files, 0) else files
  }

  lemma {:induction false} InsertIntendedIsLayout(s: seq<Entry>, files: seq<string>, index: int)
    requires NonNegative(s)
    requires 0 <= index <= |files| && index + TotalImages(s) <= |files|
    ensures InsertIntendedFrom(s, files, index) == files[..index] + Layout(s, files[index..])
    decreases |s|
  {
    if s == [] {
      assert files == files[..index] + files[index..];
    } else {
      assert NonNegative(s[1..]) by {
        assert forall i :: 0 <= i < |s| - 1 ==> s[1..][i] == s[i + 1];
      }
      ImagesBeforeBounds(s[1..], |s| - 1);
      if s[0].images == 0 {
        IntendedBreakStep(s, files, index);
      } else {
        IntendedImagesStep(s, files, index);
      }
    }
  }

  lemma {:induction false} IntendedBreakStep(s: seq<Entry>, files: seq<string>, index: int)
    requires s != [] && s[0].images == 0 && NonNegative(s[1..])
    requires 0 <= index <= |files| && index + TotalImages(s) <= |files|
    requires 0 <= TotalImages(s[1..])
    ensures NonNegative(s)
    ensures InsertIntendedFrom(s, files, index) == files[..index] + Layout(s, files[index..])
    decreases |s|, 0
  {
    assert forall i :: 1 <= i < |s| ==> s[i] == s[1..][i - 1];
    var next := PyList.Insert(files, index, BreakMarker);
    assert next == files[..index] + [BreakMarker] + files[index..];
    InsertIntendedIsLayout(s[1..], next, index + 1);
    assert next[..index + 1] == files[..index] + [BreakMarker];
    assert next[index + 1..] == files[index..];
  }

  lemma {:induction false} IntendedImagesStep(s: seq<Entry>, files: seq<string>, index: int)
    requires s != [] && s[0].images > 0 && NonNegative(s[1..])
    requires 0 <= index <= |files| && index + TotalImages(s) <= |files|
    requires 0 <= TotalImages(s[1..])
    ensures NonNegative(s)
    ensures InsertIntendedFrom(s, files, index) == files[..index] + Layout(s, files[index..])
    decreases |s|, 0
  {
    assert forall i :: 1 <= i < |s| ==> s[i] == s[1..][i - 1];
    var n := s[0].images;
    InsertIntendedIsLayout(s[1..], files, index + n);
    var rest := files[index..];
    var tail := Layout(s[1..], files[index + n..]);
    assert rest[n..] == files[index + n..];
    assert Layout(s, rest) == rest[..n] + tail;
    SliceSplit(files, index, n, tail);
  }

  lemma SliceSplit<T>(xs: seq<T>, i: nat, n: nat, tail: seq<T>)
    requires i + n <= |xs|
    ensures xs[..i + n] + tail == xs[..i] + (xs[i..][..n] + tail)
  {
    assert xs[..i + n] == xs[..i] + xs[i..][..n];
  }

  /** With the intended offset every entry finds its own slots: a break
      entry's first slot holds a marker, an image entry's slots hold its run
      of files. */
  lemma IntendedPositions(s: seq<Entry>, files: seq<string>, k: nat, j: int)
    requires NonNegative(s) && TotalImages(s) <= |files|
    requires k < |s| && 0 <= j < Slots(s[k])
    ensures 0 <= EntryStart(s, k) + j < |InsertBreaksIntended(true, s, files)|
    ensures s[k].images == 0 ==>
              InsertBreaksIntended(true, s, files)[EntryStart(s, k) + j] == BreakMarker
    ensures s[k].images != 0 ==>
              0 <= ImagesBefore(s, k) + j < |files| &&
              InsertBreaksIntended(true, s, files)[EntryStart(s, k) + j] == files[ImagesBefore(s, k) + j]
  {
    InsertIntendedIsLayout(s, files, 0);
    assert files[..0] == [] && files[0..] == files;
    LayoutPositions(s, files, k, j);
  }

  lemma {:induction false} RemoveAfterIntendedFrom(s: seq<Entry>, files: seq<string>, index: int)
    ensures RemoveBreaks(InsertIntendedFrom(s, files, index)) == RemoveBreaks(files)
    decreases |s|
  {
    if s != [] {
      if s[0].images == 0 {
        var next := PyList.Insert(files, index, BreakMarker);
        RemoveAfterInsert(files, index);
        RemoveAfterIntendedFrom(s[1..], next, index + 1);
        assert InsertIntendedFrom(s, files, index) == InsertIntendedFrom(s[1..], next, index + 1);
      } else {
        RemoveAfterIntendedFrom(s[1..], files, index + s[0].images);
        assert InsertIntendedFrom(s, files, index) == InsertIntendedFrom(s[1..], files, index + s[0].images);
      }
    }
  }

  lemma RemoveUndoesIntended(hasBreak: bool, s: seq<Entry>, files: seq<string>)
    requires forall k :: 0 <= k < |files| ==> files[k] != BreakMarker
    ensures RemoveBreaks(InsertBreaksIntended(hasBreak, s, files)) == files
  {
    if hasBreak {
      RemoveAfterIntendedFrom(s, files, 0);
    }
    RemoveBreaksOfFree(files);
  }

  /** One image, a break, one image, a break, over the files "a", "b", "c":
      entry 3 starts at playlist position 3, but the second marker lands at
      position 2, inside the image entry before it. */
  lemma SecondBreakLandsEarly()
    ensures InsertBreaks(true, TwoBreaks(), ["a", "b", "c"])
            == ["a", BreakMarker, BreakMarker, "b", "c"]
    ensures EntryStart(TwoBreaks(), 3) == 3
  {
    TwoBreaksInserted();
    TwoBreaksThirdStart();
  }

  lemma TwoBreaksInserted()
    ensures InsertFrom(TwoBreaks(), ["a", "b", "c"], 0) == ["a", BreakMarker, BreakMarker, "b", "c"]
  {
    var s := TwoBreaks();
    var f := ["a", "b", "c"];
    var m := BreakMarker;
    var w1 := PyList.Insert(f, 1, m);
    assert w1 == ["a", m, "b", "c"] by { assert f[..1] == ["a"] && f[1..] == ["b", "c"]; }
    var w2 := PyList.Insert(w1, 2, m);
    assert w2 == ["a", m, m, "b", "c"] by { assert w1[..2] == ["a", m] && w1[2..] == ["b", "c"]; }
    assert InsertFrom(s[3..], w1, 2) == w2 by { assert s[3..][1..] == []; }
    assert InsertFrom(s[2..], w1, 1) == InsertFrom(s[3..], w1, 2) by { assert s[2..][1..] == s[3..]; }
    assert InsertFrom(s[1..], f, 1) == InsertFrom(s[2..], w1, 1) by { assert s[1..][1..] == s[2..]; }
    assert InsertFrom(s, f, 0) == InsertFrom(s[1..], f, 1);
  }

  lemma TwoBreaksThirdStart()
    ensures EntryStart(TwoBreaks(), 3) == 3
  {
    var s := TwoBreaks();
    assert EntryStart(s[3..], 0) == 0;
    assert EntryStart(s[2..], 1) == 1 by { assert s[2..][1..] == s[3..]; }
    assert EntryStart(s[1..], 2) == 2 by { assert s[1..][1..] == s[2..]; }
  }

  /** The same schedule with the intended offset puts the second marker at
      position 3. */
  lemma SecondBreakIntended()
    ensures InsertBreaksIntended(true, TwoBreaks(), ["a", "b", "c"])
            == ["a", BreakMarker, "b", BreakMarker, "c"]
  {
    var s := TwoBreaks();
    var f := ["a", "b", "c"];
    var m := BreakMarker;
    var w1 := PyList.Insert(f, 1, m);
    assert w1 == ["a", m, "b", "c"] by { assert f[..1] == ["a"] && f[1..] == ["b", "c"]; }
    var w2 := PyList.Insert(w1, 3, m);
    assert w2 == ["a", m, "b", m, "c"] by { assert w1[..3] == ["a", m, "b"] && w1[3..] == ["c"]; }
    assert InsertIntendedFrom(s[3..], w1, 3) == w2 by { assert s[3..][1..] == []; }
    assert InsertIntendedFrom(s[2..], w1, 2) == InsertIntendedFrom(s[3..], w1, 3) by { assert s[2..][1..] == s[3..]; }
    assert InsertIntendedFrom(s[1..], f, 1) == InsertIntendedFrom(s[2..], w1, 2) by { assert s[1..][1..] == s[2..]; }
    assert InsertIntendedFrom(s, f, 0) == InsertIntendedFrom(s[1..], f, 1);
  }

  function TwoBreaks(): (s: seq<Entry>)
    ensures BreakCount(s) == 2
  {
    [Entry(1, 30), Entry(0, 30), Entry(1, 30), Entry(0, 30)]
  }

  // ---------------------------------------------------------------------
  // format_seconds for whole seconds
  // ---------------------------------------------------------------------

  /** `f"{n:02d}"` for a natural number. */
  function Pad2(n: nat): (r: string)
    ensures |r| >= 2 && AllDigits(r)
    ensures n < 100 ==> |r| == 2
  {
    NatToStrLength(n);
    if n < 10 then "0" + NatToStr(n) else NatToStr(n)
  }

  /** `format_seconds` on a whole number of seconds: hours, minutes and
      seconds, each at least two digits, joined by ':'. `None` stands for the
      `ValueError` raised on a negative argument. */
  function FormatSeconds(sec: int): (r: Option<string>)
    ensures r.Some? <==> sec >= 0
  {
    if sec < 0 then None
    else Some(Join([Pad2(sec / 3600), Pad2(sec % 3600 / 60), Pad2(sec % 60)], ':'))
  }

  /** Below 100 hours the text is exactly `HH:MM:SS`. */
  lemma FormatSecondsShape(sec: int)
    requires 0 <= sec < 360000
    ensures |FormatSeconds(sec).value| == 8
    ensures FormatSeconds(sec).value[2] == ':' && FormatSeconds(sec).value[5] == ':'
  {
    JoinThree(Pad2(sec / 3600), Pad2(sec % 3600 / 60), Pad2(sec % 60), ':');
  }

  /** Reads an `HH:MM:SS` text back into seconds. */
  function ClockValue(text: string): Option<int>
  {
    ClockOfPieces(Split(text, ':'))
  }

  function ClockOfPieces(pieces: seq<string>): Option<int>
  {
    if |pieces| != 3 then None
    else
      match (ParseInt(pieces[0]), ParseInt(pieces[1]), ParseInt(pieces[2]))
      case (Some(h), Some(m), Some(s)) => Some(h * 3600 + m * 60 + s)
      case _ => None
  }

  lemma Pad2Parses(n: nat)
    ensures ParseInt(Pad2(n)) == Some(n)
    ensures Free(Pad2(n), ':')
  {
    NatToStrUnpadded(n);
    if n < 10 {
      var d := NatToStr(n);
      var z := "0" + d;
      assert z[1..] == d;
      ScanAllDigits(d, 0, true);
      AccumulateNatToStr(n);
      assert ScanDigits(z, 0, false) == ScanDigits(d, 0, true);
      assert z[|z| - 1] == d[|d| - 1];
      StripOfUnpadded(z);
    }
  }

  lemma ClockOfPieceValues(x: string, y: string, z: string, a: int, b: int, c: int, sec: int)
    requires ParseInt(x) == Some(a) && ParseInt(y) == Some(b) && ParseInt(z) == Some(c)
    requires sec == a * 3600 + b * 60 + c
    ensures ClockOfPieces([x, y, z]) == Some(sec)
  {
  }

  lemma ClockOfSplit(t: string, x: string, y: string, z: string, a: int, b: int, c: int, sec: int)
    requires Split(t, ':') == [x, y, z]
    requires ParseInt(x) == Some(a) && ParseInt(y) == Some(b) && ParseInt(z) == Some(c)
    requires sec == a * 3600 + b * 60 + c
    ensures ClockValue(t) == Some(sec)
  {
    ClockOfPieceValues(x, y, z, a, b, c, sec);
  }

  lemma ClockOfParts(x: string, y: string, z: string, a: int, b: int, c: int, sec: int)
    requires Free(x, ':') && Free(y, ':') && Free(z, ':')
    requires ParseInt(x) == Some(a) && ParseInt(y) == Some(b) && ParseInt(z) == Some(c)
    requires sec == a * 3600 + b * 60 + c
    ensures ClockValue(Join([x, y, z], ':')) == Some(sec)
  {
    SplitJoinThree(x, y, z, ':');
    ClockOfSplit(Join([x, y, z], ':'), x, y, z, a, b, c, sec);
  }

  lemma ClockDigits(sec: nat)
    ensures sec == (sec / 3600) * 3600 + (sec % 3600 / 60) * 60 + sec % 60
  {
    var r := sec % 3600;
    assert sec == (sec / 3600) * 3600 + r;
    assert r == (r / 60) * 60 + r % 60;
    assert r % 60 == sec % 60 by {
      assert sec == (sec / 3600 * 60) * 60 + r;
    }
  }

  /** Reading the text back gives the seconds it was made from. */
  lemma FormatSecondsRoundTrip(sec: int)
    requires sec >= 0
    ensures ClockValue(FormatSeconds(sec).value) == Some(sec)
  {
    var a, b, c := sec / 3600, sec % 3600 / 60, sec % 60;
    Pad2Parses(a);
    Pad2Parses(b);
    Pad2Parses(c);
    ClockDigits(sec);
    ClockOfParts(Pad2(a), Pad2(b), Pad2(c), a, b, c, sec);
  }

  lemma FormatSecondsExample()
    ensures FormatSeconds(3661) == Some("01:01:01")
  {
    assert DigitChar(1) == '1';
    assert NatToStr(1) == "1";
    assert Pad2(1) == "01";
    assert 3661 / 3600 == 1 && 3661 % 3600 / 60 == 1 && 3661 % 60 == 1;
    JoinThree("01", "01", "01", ':');
    assert "01" + [':'] + "01" + [':'] + "01" == "01:01:01";
    assert FormatSeconds(3661) == Some(Join([Pad2(1), Pad2(1), Pad2(1)], ':'));
  }
}
