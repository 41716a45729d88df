# GestureSesh, modelled in Dafny

GestureSesh is a desktop tool for timed gesture-drawing practice. In the
main window the user picks image files and folders and builds a schedule
of entries. Each entry is "show N images for S seconds each", or a break
(zero images) of S seconds. Starting a session inserts a break marker
(`:/break/break.png`) into the playlist for every break entry. The session
player then walks through the playlist on a half-second timer. It plays
sound cues, shows two rows of progress dots, and applies image modifiers:
flips, grayscale, brightness, contrast, threshold and edges. At the end of
the schedule it is meant to switch to a review mode that closes itself
after 15 seconds unless the user interacts. As written, the end of the
schedule raises an exception before that close countdown starts (see
Findings), so the 15-second close countdown is never armed. An update checker runs once a day at
most. It asks the release server for the latest tag, records the check in
the configuration, and takes the release notes from the local changelog.

This project models that core as pure functions over immutable data and
proves properties of the model:

- `Schedule` covers the schedule entries, `insert_breaks`, `remove_breaks`
  and `format_seconds`.
- `Table` covers the schedule table of the main window: `append_schedule`,
  `remove_row`, `move_up`, `move_down`, `grab_schedule`, `update_total`,
  `is_valid_session` and the preset `load`.
- `Selection` covers `check_files`, `is_within_allowed_dirs`,
  `remove_dupes` and `randomize_items`.
- `LegacyQueuer` covers the older string-based copies of these helpers in
  `Image_Queuer.py`.
- `Session` is the player state machine in `SessionDisplay`.
  `SessionFacts` holds the lemmas about it.
- `Modifiers` covers the `image_mods` record and its keys.
- `Frames` covers the frame pipeline of `prepare_image_mods`. A frame is
  rows × columns × channels of bytes.
- `Dots` covers the arithmetic of the progress-dot widget
  (`DotIndicator`).
- `Updates` covers `save_config`, `_is_check_needed` and
  `check_for_updates`. `Changelog` covers `_fetch_changelog_notes`.
- `Maybe`, `PyText` and `PyList` are helpers:
  - `Option`;
  - Python's `str` methods, `int()` and `str()` on integers;
  - `list.insert`, list filtering and swapping.

## Conventions

**Time and the timer.**
- Time is counted in half-second ticks, so `time_seconds == t` is
  `ticks == 2 * t`. Every duration is a whole number of seconds, and the
  add keys add 30 or 60 seconds, so this is exact.
- One timeout of the countdown timer is one atomic step (`Session.Tick`).

**Random choices.** They are parameters:
- the order in which `skip_image` pops its shuffled indices
  (`Session.PopOrder`);
- the indices `randomize_items` draws (`Selection.ValidPicks`).

Each parameter is constrained by what the random source guarantees.

**The outside world.** These are all parameters:
- the file system (`isfile`, `os.stat`, the decoders);
- the clock;
- the release server's answer;
- the changelog text;
- `packaging.version`;
- `datetime.fromisoformat`.

**Exceptions.** An exception that escapes a Qt slot is a result, not a
precondition:
- `Session.Outcome` is `Raised` or `Returned`;
- `Frames.Outcome.Raised` marks a reader that gets no bytes or a failing
  library call;
- `Updates.Check.raised` marks an exception leaving `check_for_updates`;
- a `None` from `Updates.IsCheckNeeded` marks an exception leaving
  `_is_check_needed`.

**The session invariant.** `Session.Inv` says the schedule is not empty
and the entry index points into it. It holds from the constructor on
(`SessionFacts.StartKeepsInv`) and every transition keeps it.

**As written and as intended.** For each of the three Findings, the
model has both the code as written and the corrected behaviour. The
session transitions `Session.LoadEntry`, `Session.LoadNextImage`,
`Session.Countdown` and `Session.Tick` use the intended `end_session`,
and the lemmas stated over them describe that behaviour. Their as-written
counterparts are `Session.LoadEntryAsWritten`,
`Session.LoadNextImageAsWritten`, `Session.CountdownAsWritten` and
`Session.TickAsWritten`. These return `Raised` with `Session.Finish`'s
state when the schedule ends. `SessionFacts.LoadNextImageAsWrittenAgrees`
and `SessionFacts.TickStepsAsWritten` prove that the two chains differ
only there. The main window's `Schedule.InsertBreaks` is modelled as
written.

**Code and specification.** Where the repository's design description and
the code differ, the model follows the code:
- `add_30_seconds` and `add_60_seconds` have no clamp
  (GestureSesh.py:2198-2208). Only positive amounts are ever added.
- `skip_image` compares with the literal `"break.png"`, so it does not
  recognise real break markers. This is modelled as written and as
  intended; see Findings.

## Model

Top-level transitions whose contract is stated by a lemma are listed through
that lemma: for example `Session.Skip` through `SessionFacts.SkipCases`,
`Session.Countdown` through `SessionFacts.TickSteps`, `Updates.SaveConfig`
through `Updates.SaveConfigFront`, `Frames.Modify` through
`Frames.ModifyShape`, and `Changelog.Pick` through `Changelog.PickFirst`.

| member | source | states |
|---|---|---|
| Schedule.InsertBreaks | GestureSesh.py:1101-1109 | With `has_break` set, exactly one marker is added per zero-image entry. Without it nothing is added. Every other item keeps its number of occurrences. |
| Schedule.InsertWithoutBreakEntries | GestureSesh.py:1101-1109 | A stale `has_break` flag is harmless: with no zero-image entry the playlist comes back unchanged. |
| Schedule.WrittenMarkerPositions | GestureSesh.py:1103-1109 | As written, the marker of break entry k sits at the number of images scheduled before k. Markers inserted earlier are not counted in that offset. |
| Schedule.RemoveBreaks | GestureSesh.py:1111-1126 | No marker is left. Every other item keeps its number of occurrences. |
| Schedule.RemoveBreaksLoop | GestureSesh.py:1122-1126 | The backwards pop loop leaves exactly the marker-free subsequence, in order. |
| Schedule.RemoveAfterInsert | GestureSesh.py:1101-1126 | Removing the markers after one insertion of a marker gives the same list as removing them before it. |
| Schedule.RemoveUndoesInsert | GestureSesh.py:1101-1126 | `remove_breaks` after `insert_breaks` gives back any marker-free selection. |
| Schedule.LayoutPositions | GestureSesh.py:1655-1678 | This is the reference playlist that the player's walk expects: each break entry has a marker at its start slot, and each image entry has its own files, in order. |
| Schedule.InsertBreaksIntended | GestureSesh.py:1101-1109 | The intended insertion, whose offset also counts the markers already inserted. It adds one marker per break entry. |
| Schedule.InsertIntendedIsLayout | GestureSesh.py:1101-1109 | The intended insertion builds exactly the reference playlist. |
| Schedule.IntendedPositions | GestureSesh.py:1101-1109 | With the intended offset, every break marker is at its entry's start slot, and every image entry's files are in its own slots. |
| Schedule.RemoveUndoesIntended | GestureSesh.py:1101-1126 | `remove_breaks` also undoes the intended insertion on marker-free selections. |
| Schedule.SecondBreakLandsEarly | GestureSesh.py:1104-1109 | Take the entries 1 image, break, 1 image, break over files a, b, c. The code puts the markers in slots 1 and 2, but the second break entry starts at slot 3. |
| Schedule.SecondBreakIntended | GestureSesh.py:1104-1109 | For the same schedule the intended insertion puts the markers in slots 1 and 3, the two break entries' start slots. |
| Schedule.FormatSeconds | GestureSesh.py:892-893 | The result is missing (ValueError) exactly for negative seconds. |
| Schedule.FormatSecondsShape | GestureSesh.py:895-922 | Below 100 hours the text is eight characters, `HH:MM:SS`. |
| Schedule.FormatSecondsRoundTrip | GestureSesh.py:877-922 | Splitting the text at `:` and reading hours, minutes and seconds back gives the original number of seconds. |
| Schedule.FormatSecondsExample | GestureSesh.py:885-886 | 3661 seconds reads `01:01:01`, as the docstring says. |
| Table.AppendSchedule | GestureSesh.py:712-744 | The entry is refused exactly when both minutes and seconds are 0. Otherwise one row is appended after the existing rows, and the spin boxes go back to 0. |
| Table.AppendKeepsNumbering | GestureSesh.py:725-742 | Appending keeps the entry-number column reading 1, 2, 3, and so on. |
| Table.AppendThenGrab | GestureSesh.py:712-744 | After an accepted append, `grab_schedule` reads the old entries plus `Entry(images, minutes * 60 + seconds)`. |
| Table.Renumber | GestureSesh.py:750-754 | The image and duration cells are kept. Rows from the given index on are numbered by position. |
| Table.RemoveRow | GestureSesh.py:746-760 | With a current row, that row goes and later rows move up one place. Without one (−1), nothing is removed and the cursor stays at −1. The cursor stays at the removed index, or moves up one when the last row was removed. |
| Table.RemoveRowKeepsNumbering | GestureSesh.py:746-760 | Removing a row keeps the numbering 1, 2, 3, and so on. |
| Table.SwapColumns | GestureSesh.py:767-780 | The image and duration cells of two rows are exchanged, and nothing else changes. A missing cell is reported as an error. |
| Table.MoveUp | GestureSesh.py:762-781 | Nothing happens on the first row or without a current row. Otherwise, when the cells read, the row's image count swaps with the row above, and the cursor follows. |
| Table.MoveDown | GestureSesh.py:783-802 | Nothing happens on the last row. Without a current row the cell read fails. Otherwise, when the cells read, the row's image count swaps with the row below, and the cursor follows. |
| Table.MoveUpThenDown | GestureSesh.py:762-802 | Moving a complete row up and then down again restores the table and the cursor. |
| Table.MoveKeepsNumbering | GestureSesh.py:762-802 | Moves keep the numbering column. |
| Table.GrabSchedule | GestureSesh.py:1128-1136 | Reading succeeds exactly when every row's cells parse. Each entry holds its row's numbers. `has_break` ends up set exactly when it was set before or some entry has zero images. |
| Table.UpdateTotal | GestureSesh.py:818-875 | The totals are left alone exactly when the table is empty or its last row is not filled in. Shown totals are `str` of the image sum and `format_seconds` of the time. |
| Table.SumsOfGrab | GestureSesh.py:838-861 | The loop of `update_total` fails exactly where `grab_schedule` would. Otherwise it sums the images, and adds images × seconds for an image entry or the seconds for a break. |
| Table.UpdateTotalOfSchedule | GestureSesh.py:818-875 | On a readable table the shown totals are those of the schedule `grab_schedule` reads. |
| Table.UpdateTotalOfThree | GestureSesh.py:818-875 | Three rows written by `append_schedule` show the sum of their image counts and of their entries' seconds, a break counting its time once. |
| Table.UpdateTotalExample | GestureSesh.py:818-875 | The rows 10×30 s, a 120 s break and 1×180 s total 11 images and 600 seconds. |
| Table.EntryRowReads | GestureSesh.py:736-742 | A row written from numbers reads back as those numbers. |
| Table.GrabAppend | GestureSesh.py:1128-1136 | Reading a table with one more readable row gives one more entry at the end. |
| Table.GrabPrefix | GestureSesh.py:1128-1136 | The entries read from a table's first rows do not depend on later rows. |
| Table.FirstMissing | GestureSesh.py:1064-1080 | The result is the index of the first file the file test rejects, or the number of files. |
| Table.IsValidSession | GestureSesh.py:1048-1099 | The session is valid exactly when every row parses, the schedule is not empty, every file exists, and there are at least as many files as scheduled images. A missing file is the one dropped from the selection. Any other verdict leaves the selection alone. |
| Table.InsertOrdered | GestureSesh.py:989-991 | Inserting an index into a stably sorted order keeps it sorted and adds exactly that index. |
| Table.SortIndices | GestureSesh.py:989-991 | The row indices come out in stable order of their integer keys, each exactly once. |
| Table.Load | GestureSesh.py:979-1005 | An empty preset changes nothing. A key that is not an integer gives the error path with no rows. Otherwise there is one row per preset row. |
| Table.LoadOrder | GestureSesh.py:979-1005 | Loaded rows come in the order of their integer keys, and equal keys keep their stored order. Each row holds its preset's cell texts. |
| Selection.CheckFiles | GestureSesh.py:361-374 | Each name goes to exactly one of the two lists. |
| Selection.CheckFilesSplits | GestureSesh.py:361-374 | The valid list is the names with a supported extension that exist, in order. The invalid list is all the others, in order. |
| Selection.CheckFilesPartition | GestureSesh.py:361-374 | The two lists together hold each name as often as the input does. |
| Selection.ExtensionDecides | GestureSesh.py:363-366 | For `dir/stem.ext` only the extension decides, in any letter case. |
| Selection.UpperCaseExtensions | GestureSesh.py:363-366 | `.JPG`, `.JPEG`, `.PNG` and `.BMP` are accepted. |
| Selection.HiddenFileRefused | GestureSesh.py:363-366 | A name like `.png` has no extension for `splitext`, so it is refused. |
| Selection.DotlessNameRefused | GestureSesh.py:363-366 | A name without a dot is refused, even when a folder name has one. |
| Selection.IsWithinAllowedDirs | GestureSesh.py:287-293 | True exactly when the path is some allowed folder itself or lies below it. |
| Selection.InFolderBoundary | GestureSesh.py:287-293 | Being inside a folder means the folder is a prefix that ends at a separator or at the path's end. |
| Selection.AllowedDirsExample | GestureSesh.py:287-293 | `/pics2/a.png` is not inside `/pics`, but `/pics/a.png` is. |
| Selection.DedupKeeps | GestureSesh.py:382-413 | The loop keeps only files of the selection. No kept file that can be stat-ed is repeated, or has a key seen earlier. Every file whose key is new, or that cannot be stat-ed, is kept. |
| Selection.RemoveDupes | GestureSesh.py:382-413 | "No files" is shown exactly for an empty selection. "Removed n" is shown with n the number of files dropped, and n > 0. "No duplicates" leaves the length alone. |
| Selection.RemoveDupesKeepsEachOnce | GestureSesh.py:382-413 | The same files remain, and each file that can be stat-ed remains once. |
| Selection.DedupKeepsUnstatable | GestureSesh.py:400-402 | Files that cannot be stat-ed are all kept, however often they occur. |
| Selection.DedupOfDistinct | GestureSesh.py:382-413 | A selection without repeats is left as it is. |
| Selection.RemoveDupesIdempotent | GestureSesh.py:382-413 | Running it twice removes nothing more, and the second run reports no duplicates. |
| Selection.RemoveDupesExample | GestureSesh.py:382-413 | A repeated file is dropped. Two copies of a file that cannot be stat-ed both stay. |
| Selection.RandomizeItems | GestureSesh.py:809-816 | The result is a permutation of the selection. If every draw is index 0, the order is unchanged. |
| LegacyQueuer.CheckFiles | Image_Queuer.py:155-168 | Each name goes to exactly one of the two lists. |
| LegacyQueuer.CheckFilesSplits | Image_Queuer.py:155-168 | Valid names are those whose last four or five characters, lower-cased, are a supported extension, in order. The rest are invalid, in order. |
| LegacyQueuer.CheckFilesPartition | Image_Queuer.py:155-168 | The two lists together hold each name as often as the input does. |
| LegacyQueuer.EndingDecides | Image_Queuer.py:159-162 | Any name ending in a supported extension is valid, whatever precedes it, dotless names included. |
| LegacyQueuer.RemoveDupes | Image_Queuer.py:178-195 | Kept and popped files together are as many as the selection. |
| LegacyQueuer.RemoveDupesSplits | Image_Queuer.py:178-195 | Kept and popped files together are the selection, as a multiset. |
| LegacyQueuer.RemoveDupesDistinct | Image_Queuer.py:178-195 | The kept base names are distinct, and none was met before. |
| LegacyQueuer.RemoveDupesCovers | Image_Queuer.py:178-195 | Every base name not met before survives in some kept file. |
| LegacyQueuer.KeepsLast | Image_Queuer.py:186-192 | Of two files with the same name in different folders, the later one is kept and the earlier one is popped. |
| LegacyQueuer.ZeroText | Image_Queuer.py:614-616 | `str(n)` reads `'0'` exactly for zero. |
| LegacyQueuer.InsertAgrees | Image_Queuer.py:611-620 | On a table written from numbers, the old string-based `insert_breaks` inserts where the current one does. |
| LegacyQueuer.PaddedZeroInsertsNothing | Image_Queuer.py:614-619 | An image cell `'00'` reads as zero images but is not the text `'0'`. No marker is inserted, and the offset does not move. |
| LegacyQueuer.RemoveBreaks | Image_Queuer.py:622-628 | No file named `break.png` is left, and the list does not grow. |
| LegacyQueuer.RemovesNamedBreaks | Image_Queuer.py:622-628 | Both the marker and any user file called `break.png` count as breaks. |
| LegacyQueuer.RemoveAfterInsert | Image_Queuer.py:611-628 | Removing the breaks after one insertion of the marker gives the same list as removing them before it. |
| LegacyQueuer.RemoveUndoesInsert | Image_Queuer.py:611-628 | On a selection without files named `break.png`, removing the breaks undoes the insertion. |
| LegacyQueuer.ReadCells | Image_Queuer.py:632-638 | A row reads until its first missing cell. The texts read are the cells. The flag is set exactly when it was set before or a read cell is `'0'`. |
| LegacyQueuer.GrabSchedule | Image_Queuer.py:630-638 | At most one text list per row, each with at most three texts. |
| LegacyQueuer.GrabScheduleOk | Image_Queuer.py:630-638 | Reading succeeds exactly when every cell is present. Then there is one text list per row. |
| LegacyQueuer.GrabScheduleCells | Image_Queuer.py:630-638 | Every text read is the cell at its row and column. |
| LegacyQueuer.GrabScheduleBreak | Image_Queuer.py:630-638 | `has_break` ends up set exactly when it was set before or any cell read, in any column, is `'0'`. |
| LegacyQueuer.UpdateTotal | Image_Queuer.py:355-389 | A time total is shown only after the image total was. |
| LegacyQueuer.UpdateTotalAgrees | Image_Queuer.py:355-389 | Where every cell reads, both totals are those of the current window's loop. The image total alone needs only the image cells. |
| Modifiers.FlipHorizontal | GestureSesh.py:1919-1924 | Only the horizontal flip changes. |
| Modifiers.FlipVertical | GestureSesh.py:1926-1931 | Only the vertical flip changes. |
| Modifiers.Grayscale | GestureSesh.py:1933-1938 | Only the grayscale switch changes. |
| Modifiers.ToggleThreshold | GestureSesh.py:1956-1958 | Only the threshold switch changes. |
| Modifiers.ToggleEdge | GestureSesh.py:1960-1962 | Only the edge switch changes. |
| Modifiers.ToggleGrayscaleMode | GestureSesh.py:1909-1917 | Only the gray mode changes, between perceptual and simple. |
| Modifiers.SwitchesTwice | GestureSesh.py:1909-1962 | Each switch undoes itself. |
| Modifiers.IncreaseBrightness | GestureSesh.py:1940-1942 | Brightness goes up by 10, held at 100. Nothing else changes. |
| Modifiers.DecreaseBrightness | GestureSesh.py:1944-1946 | Brightness goes down by 10, held at −100. Nothing else changes. |
| Modifiers.IncreaseContrast | GestureSesh.py:1948-1950 | Contrast goes up by 0.1, held at 3.0. Nothing else changes. |
| Modifiers.DecreaseContrast | GestureSesh.py:1952-1954 | Contrast goes down by 0.1, held at 0.1. Nothing else changes. |
| Modifiers.BrightnessStepsUndo | GestureSesh.py:1940-1946 | Below the top, one step down undoes one step up. Above the bottom, one step up undoes one step down. |
| Modifiers.ContrastStepsUndo | GestureSesh.py:1948-1954 | The same holds for contrast, away from its bounds (in the real-number model; doubles can round, see Left out). |
| Modifiers.BrightenSaturates | GestureSesh.py:1940-1942 | Enough presses of brightness-up reach 100. |
| Modifiers.BrightenStaysTop | GestureSesh.py:1940-1942 | At 100, further presses stay at 100. |
| Modifiers.BrightenBelowTop | GestureSesh.py:1940-1942 | Below the top, each press adds exactly 10. |
| Modifiers.BrightenSplit | GestureSesh.py:1940-1942 | a presses followed by b presses are a + b presses. |
| Modifiers.Reset | GestureSesh.py:1318-1335 | Every switch is off, brightness and contrast are at their defaults, the mode is perceptual, and the break flags are clear. |
| Modifiers.MarkBreak | GestureSesh.py:1707-1725 | Both break flags are set exactly on a break, and the user's switches are untouched. |
| Modifiers.EndBreakGrayscale | GestureSesh.py:2116-2117 | Only the break's grayscale is dropped. |
| Modifiers.PressKeepsValid | GestureSesh.py:1909-1962 | Any key keeps brightness a multiple of 10 in [−100, 100] and contrast in [0.1, 3.0]. |
| Modifiers.PressAllKeepsValid | GestureSesh.py:1909-1962 | Any sequence of keys keeps the modifiers in range. |
| Modifiers.DefaultsValid | GestureSesh.py:1318-1330 | The defaults are in range and do not scale the frame. |
| Frames.ReaderFor | GestureSesh.py:1753-1763 | A break is always read through Qt's decoder. |
| Frames.ReaderBySuffix | GestureSesh.py:1756-1763 | `.jpg` in either letter case goes through Qt. `.jpeg` and `.png` are decoded with every channel kept. |
| Frames.ThresholdBinary | GestureSesh.py:1804-1805 | A thresholded byte is 255 exactly when the source byte is above 128, and 0 otherwise. The shape is kept. |
| Frames.FlipsMirror | GestureSesh.py:1810-1813 | The horizontal flip reverses columns and the vertical flip reverses rows. |
| Frames.FlipsTwice | GestureSesh.py:1810-1813 | Flipping twice the same way gives the frame back. |
| Frames.FlipsCommute | GestureSesh.py:1810-1813 | The two flips commute. |
| Frames.PerceptualGray | GestureSesh.py:1888-1903 | Defined exactly for colour frames and for planes three pixels wide. Four channels stay four channels. Three channels become one plane of the same size. A three-wide plane becomes a column one pixel wide, because numpy returns one gray value per row. |
| Frames.PerceptualKeepsAlpha | GestureSesh.py:1890-1898 | With alpha, every pixel becomes (g, g, g, alpha), with alpha unchanged. |
| Frames.PerceptualFlattens | GestureSesh.py:1899-1903 | Without alpha, each pixel becomes its one luma byte. |
| Frames.PerceptualColumn | GestureSesh.py:1899-1903 | Each row of a three-wide plane becomes one gray byte. The byte is the luma of the row read right to left, because the channel reversal reverses a plane's columns. |
| Frames.SimpleGray | GestureSesh.py:1905-1907 | Defined exactly for colour frames. The result is one plane of the same height and width. |
| Frames.Gray | GestureSesh.py:1796-1799 | Either mode fails exactly on frames it cannot take. The simple mode fails on every plane. The perceptual mode fails on every plane except a three-wide one, which becomes a column. Any other result is a plane or a four-channel frame. |
| Frames.SwapTwice | GestureSesh.py:1828-1833 | The colour swap exchanges channels 0 and 2, keeps the others, and undoes itself. |
| Frames.Display | GestureSesh.py:1815-1838 | The picture is refused exactly for a colour frame whose channel count is not 3 or 4. A shown picture keeps the frame's size. |
| Frames.Prepare | GestureSesh.py:1753-1772 | A reader that gets no bytes raises: `open` raises on a missing file, and decoding an empty buffer raises. Bytes the decoder cannot read mean the picture is refused. |
| Frames.RefusedExactly | GestureSesh.py:1766-1838 | The picture is refused exactly when the decoded frame is empty, has a channel count other than 1, 3 or 4, or is a one-channel frame that is not a plane while grayscale, threshold and edges are all off. With one of them on, that frame makes the conversion raise instead. |
| Frames.ModifyShape | GestureSesh.py:1782-1825 | The modifications keep the height. They keep the width unless a three-wide plane becomes a gray column. Without a gray step they keep the channels too. They fail exactly when the conversion meets a frame it cannot take. They also fail when a three-wide plane's one-dimensional gray array reaches the final `height, width` unpacking unchanged, which happens with grayscale on and no threshold, edges or flip. |
| Frames.EdgeOverrides | GestureSesh.py:1795-1807 | With edges on, the threshold and grayscale switches make no difference to the result. |
| Frames.PlainModify | GestureSesh.py:1782-1813 | With the default modifiers the frame is unchanged. |
| Frames.PlainShow | GestureSesh.py:1747-1838 | With the defaults, a non-empty three-channel frame is shown as RGB888 with its channels swapped. |
| Frames.GrayPlaneRaises | GestureSesh.py:1792-1825 | A plane decoded from a `.png` with grayscale on makes the picture raise, with one exception. In perceptual mode, a three-wide plane whose gray column is thresholded, edged or flipped does not raise. |
| Frames.ColumnShown | GestureSesh.py:1782-1825 | A three-wide plane in perceptual mode, with grayscale and a flip on, is shown as a Grayscale8 column. It has one luma byte per row, and its rows are reversed by the vertical flip. |
| Dots.SetStart | dot_indicator.py:230-231 | The set start is a multiple of 10 with start ≤ value − 1 < start + 10. |
| Dots.SetStartUnique | dot_indicator.py:230-231 | That start is the only one, so the set of a value is determined. |
| Dots.SetsLeft | dot_indicator.py:233-237 | Never negative, and 0 on a row break. |
| Dots.SetsLeftCount | dot_indicator.py:233-237 | Outside a row break, the sets left are the ceiling of the images after the current set divided by 10. |
| Dots.LayoutCounts | dot_indicator.py:239-248 | A row break gives one dot, no chevron, start 0. Otherwise the chevron shows exactly when images follow the set, and the dots plus the chevron are min(10, maximum − start). |
| Dots.ChevronLeavesNine | dot_indicator.py:239-248 | With a chevron there are nine dots and at least one set follows. |
| Dots.ChevronIffSetsLeft | dot_indicator.py:233-248 | The chevron shows exactly when sets follow. |
| Dots.LayoutBounded | dot_indicator.py:239-248 | A layout has at most ten places. |
| Dots.SetMaximum | dot_indicator.py:161-169 | Stores max(0, maximum) and keeps the breaks. A maximum ≤ 0 makes a row break with value 1 and stops the pulse. Otherwise only the maximum changes. |
| Dots.SetValue | dot_indicator.py:171-176 | The value is at least 1, and exactly 1 on a row break. The maximum and the breaks are kept. |
| Dots.SetValuePulse | dot_indicator.py:171-209 | A row break or a break dot pulses without limit. Otherwise the pulse runs once per set still to come, or stops when none follows. |
| Dots.LocalBreaksAt | dot_indicator.py:187-191 | A local break is a drawn dot whose absolute index is a break. |
| Dots.OnBreakDotAt | dot_indicator.py:185-191 | The current dot is a break dot exactly when its absolute index is a break. |
| Dots.SetBreaks | dot_indicator.py:213-216 | The breaks are exactly the given indices, and nothing else changes. |
| Dots.ApplyBreakVector | dot_indicator.py:218-222 | The breaks are exactly the entries with count ≤ 0, and the maximum is the number of entries. |
| Dots.EmptyBreakVector | dot_indicator.py:218-222 | An empty vector makes the row a single break dot at value 1, not pulsing. |
| Dots.DotColour | dot_indicator.py:357-366 | A dot is drawn in a break colour exactly when it is a local break. |
| Dots.PositionShown | dot_indicator.py:340-344 | Within the images, the position is a dot, or the filled chevron exactly at the tenth place of a set with a chevron. |
| Dots.DotColours | dot_indicator.py:340-366 | On a normal dot: earlier dots are passed, the current one is current, and later ones are empty. With the chevron filled, all dots are passed. |
| Dots.BreakDotColour | dot_indicator.py:357-360 | A break dot is lit exactly when it is the current one. |
| Dots.RowWidth | dot_indicator.py:250-257 | Dots and their gaps, plus a gap and the chevron when there is one. |
| Dots.FullWidth | dot_indicator.py:259-262 | The kept width is two glow pads plus a row of nine dots and a chevron, whatever the progress. |
| Dots.RowsFit | dot_indicator.py:250-262 | A row of at most nine dots fits the kept width. A row of ten dots is wider by the dot minus the chevron. |
| Dots.DefaultTenDotsOverflow | dot_indicator.py:250-262 | With the default sizes a ten-dot row is 3 px wider than the kept width. |
| Session.DisplayCue | GestureSesh.py:1683-1696 | A sound plays exactly on a new entry, on an entry's last image, or when the entry's time exceeds 10 s. A new entry takes the new-entry cue. |
| Session.DisplayImage | GestureSesh.py:1680-1735 | Past the playlist the timer stops and the screen is kept. On a marker the images left drop to 0 and both break flags are set. Otherwise the break flags are cleared. The entry dots are untouched. |
| Session.ShowBreak | GestureSesh.py:1707-1722 | A break shows the break state with the image dots as a single row-break dot. |
| Session.ShowImage | GestureSesh.py:1723-1735 | An image sets the image dots to the entry's count, with the value at the image's index in the entry. |
| Session.LoadEntry | GestureSesh.py:1604-1607 | With the intended `end_session`: past the last entry the session ends in review mode. Schedule and playlist are never changed. |
| Session.Finish | GestureSesh.py:1622-1636 | Review mode: the timer is stopped and blocked, and the close countdown is at 15. The entry is the last one with nothing left. The position is the number of scheduled images. |
| Session.EndSessionAsWritten | GestureSesh.py:1622-1642 | As written, the call to `maximum()` raises before the close timer starts, so the close countdown is never armed. |
| Session.EndSession | GestureSesh.py:1622-1642 | As intended: both dot rows are filled to their maximum, and the close countdown runs. |
| Session.FirstOther | GestureSesh.py:1580-1591 | The first popped index whose item is not the break name. It is missing exactly when every popped index holds the break name. |
| Session.AlertAt | GestureSesh.py:2097-2110 | An alert sounds exactly at 10 s, 5 s and 0.5 s. |
| Session.Tick | GestureSesh.py:1292-1295 | A stopped or blocked timer does nothing. This holds for the intended and the as-written tick alike. |
| Session.ZeroEntries | GestureSesh.py:1255-1257 | Only indices of zero-image entries are listed. |
| SessionFacts.LoadEntryFacts | GestureSesh.py:1604-1620 | Loading an entry sets its time. It leaves images − 1 to go, or 0 on a marker. The timer runs only if asked and the playlist is not over. On a new entry the new-entry cue plays. The entry dots show entry k + 1 of all. |
| SessionFacts.LoadEntryEnds | GestureSesh.py:1604-1607 | With the intended `end_session`: past the last entry, loading is `end_session`. |
| SessionFacts.LoadEntryAsWrittenCases | GestureSesh.py:1604-1642 | As written, loading raises exactly past the last entry, and leaves the state `end_session` set before its `maximum()` call. The session is finished and the timer stopped. The close countdown and both dot rows are untouched. Inside the schedule the as-written and intended loads agree. |
| SessionFacts.StartKeepsInv | GestureSesh.py:1181-1316 | The constructor leaves a state with an entry to show. |
| SessionFacts.LoadNextImageKeepsInv | GestureSesh.py:1644-1678 | Advancing keeps the invariant. |
| SessionFacts.PreviousKeepsInv | GestureSesh.py:1999-2080 | Going back keeps the invariant. |
| SessionFacts.TickKeepsInv | GestureSesh.py:2090-2123 | A tick keeps the invariant. |
| SessionFacts.SkipKeepsInv | GestureSesh.py:1572-1593 | A skip keeps the invariant. |
| SessionFacts.KeysKeepInv | GestureSesh.py:1909-2235 | Modifier keys, pause, add, restart, the close countdown and interaction all keep the invariant. |
| SessionFacts.AdvanceWithinEntry | GestureSesh.py:1663-1678 | With images left, an advance moves one position on in the same entry with one image fewer (0 on a marker). The time resets to the entry's duration and the running flag is kept. |
| SessionFacts.AdvanceToNextEntry | GestureSesh.py:1657-1662 | At an entry's end with entries left, an advance moves one position on into the next entry with its duration. The new-entry cue plays and the running flag is kept. |
| SessionFacts.AdvancePastLastEntry | GestureSesh.py:1655-1662 | With the intended `end_session`: at the last entry's end, an advance enters review mode. The close countdown runs from 15, the timer is blocked, the position is the number of scheduled images, and ticks change nothing. |
| SessionFacts.LoadNextImageAsWrittenAgrees | GestureSesh.py:1644-1678 | The as-written advance raises exactly after the last image of the last entry. Everywhere else it equals the intended advance. |
| SessionFacts.AdvancePastLastAsWritten | GestureSesh.py:1655-1676 | As written, at the last entry's end an advance raises. It leaves review mode with the timer stopped and blocked and ticks changing nothing. The close countdown is not started, the dot rows are not filled, no sound plays, and the timer is not restarted. |
| SessionFacts.PreviousCases | GestureSesh.py:2016-2080 | At the very first image the entry is reloaded in place. At an entry's first image, or on a break, the cursor goes to the previous entry's last image. Otherwise it goes to the previous image of the same entry. |
| SessionFacts.RoundTripWithinEntry | GestureSesh.py:1644-2080 | Outside review mode, one advance and one step back within an entry restore the position, the entry, the images left and the running flag. |
| SessionFacts.RoundTripAcrossEntries | GestureSesh.py:1644-2080 | The same holds across an entry boundary. |
| SessionFacts.LoadEntryShows | GestureSesh.py:1707-1726 | After loading an entry, the break label is shown exactly on a marker. |
| SessionFacts.ZeroEntryWithoutMarker | GestureSesh.py:1616 | A zero-image entry whose slot holds no marker is left with −1 images to go. |
| SessionFacts.NegativeItemsStayNegative | GestureSesh.py:1663-1673 | With a negative count, each advance stays in the entry and counts down further, except on a marker, so the entry never ends. |
| SessionFacts.TickSteps | GestureSesh.py:2090-2123 | With the intended `end_session`: a running tick raises exactly when 10 s or less remain and the position is past the end of the playlist. Otherwise it is the cue step, then one half-second less, or an advance at zero. |
| SessionFacts.TickStepsAsWritten | GestureSesh.py:2090-2123 | As written, a running tick raises exactly when 10 s or less remain past the end of the playlist, or at zero after the last image of the last entry. In the second case it leaves `end_session`'s state. Otherwise it equals the intended tick. |
| SessionFacts.BeforeEndFacts | GestureSesh.py:2091-2118 | The cue step plays at most the one cue. At 10 s or less it clears the entry flags, and on a break it drops the break's grayscale. Nothing else changes. |
| SessionFacts.TickNeverNegative | GestureSesh.py:2119-2123 | With nonnegative durations the remaining time never goes negative. |
| SessionFacts.CountdownCueCases | GestureSesh.py:2092-2110 | The halfway cue plays exactly for entries of 30 s or more at half time. An alert plays exactly at 10 s, 5 s and 0.5 s when neither entry flag is set. |
| SessionFacts.PopOrderCovers | GestureSesh.py:1578-1581 | The pop order visits every later position. |
| SessionFacts.SkipCases | GestureSesh.py:1572-1593 | Skip never moves the position or the entry, and keeps the playlist a permutation. On the break name, or with only break names later, nothing changes. When anything changes, the current item has been swapped with a later non-break item, and the time restarts. |
| SessionFacts.SkipPastEnd | GestureSesh.py:1573 | Past the playlist's end, skip raises IndexError. |
| SessionFacts.SkipKeepsMarkers | GestureSesh.py:1572-1593 | The intended skip never moves a marker and never takes one in, so the entry's images left are kept. |
| SessionFacts.SkipAsWrittenPullsBreak | GestureSesh.py:1573-1587 | As written, skip swaps a real marker into the current image's place. The intended skip leaves that state alone. |
| SessionFacts.CloseTicksCount | GestureSesh.py:2220-2229 | n ticks of the close timer take n seconds off. It closes exactly when the seconds run out. |
| SessionFacts.CloseTicksIdle | GestureSesh.py:2220-2222 | A stopped close timer does nothing. |
| SessionFacts.EndSessionCloses | GestureSesh.py:1622-1642 | After the intended `end_session` the window is still open after 14 ticks and closed after 15. |
| SessionFacts.EndSessionAsWrittenNeverCloses | GestureSesh.py:1639-1642 | As written, no number of close ticks closes the window. |
| SessionFacts.ReviewNext | GestureSesh.py:1647-1654 | In review mode, next moves one on, up to the number of scheduled images. It cancels the countdown and the timer stays blocked. |
| SessionFacts.ReviewPrevious | GestureSesh.py:2002-2011 | In review mode, previous moves one back, down to 0, and cancels the countdown. |
| SessionFacts.ReviewStaysFrozen | GestureSesh.py:2163-2213 | In review mode, ticks, pause, add and restart change nothing, and every key keeps the session finished and blocked. |
| SessionFacts.InteractCancels | GestureSesh.py:1531-1537 | In review mode a key or press stops the close countdown, so the window no longer closes by itself. Outside review mode it changes nothing. |
| SessionFacts.PauseTwice | GestureSesh.py:2163-2174 | Pausing twice gives the state back. |
| SessionFacts.AddSecondsCompose | GestureSesh.py:2198-2208 | Adding a, then b seconds is adding a + b. Adding 0 does nothing. |
| SessionFacts.ModifierKeyFacts | GestureSesh.py:1909-1962 | A modifier key changes the modifiers by that key, keeping the break flags of the slot. The position, playlist, review state, clock and entry index are kept. The sound plays exactly for a sounding key with a cue due. A reset on an image gives the defaults. |
| SessionFacts.ZeroEntriesExact | GestureSesh.py:1255-1258 | The break indices are exactly the zero-image entries. |
| SessionFacts.ZeroEntriesIncreasing | GestureSesh.py:1255-1258 | The break indices are in increasing order. |
| SessionFacts.StartShape | GestureSesh.py:1181-1316 | The session starts at position 0 in entry 0 with its duration and the new-entry cue. The timer runs if there is anything to show. The close countdown is at 15 and stopped, and the entry dots show 1 of all. |
| Updates.IndexOf | src/gesturesesh/update_checker.py:76-83 | The first index holding a key, or the length. |
| Updates.Get | src/gesturesesh/update_checker.py:77-80 | Missing exactly when no field has the key. |
| Updates.SetKeyFacts | src/gesturesesh/update_checker.py:214-217 | Setting a key keeps the keys distinct and their order, stores the value, and leaves other keys alone. A new key is added at the end. |
| Updates.Only | src/gesturesesh/update_checker.py:77-80 | Empty exactly when no field has the key, otherwise the first field with that key, which is what the dictionary holds for it. |
| Updates.SaveConfigFront | src/gesturesesh/update_checker.py:76-83 | `update_check` comes first and `recent_session` next, when present. |
| Updates.SaveConfigKeepsFields | src/gesturesesh/update_checker.py:76-83 | The same fields, no key added or dropped. Ordinary keys keep their order, keys stay distinct, and every lookup gives the same value. |
| Updates.SaveConfigIdempotent | src/gesturesesh/update_checker.py:76-83 | Saving an already ordered configuration keeps its order. |
| Updates.IsCheckNeededRaises | src/gesturesesh/update_checker.py:178-190 | `_is_check_needed` raises exactly when `update_check` is not an object, or `last_checked` is a true value that is not a string. |
| Updates.IsCheckNeededOfDate | src/gesturesesh/update_checker.py:178-187 | With a date string, a check is due exactly when the string is empty or unparsable, or more than 24 hours old. |
| Updates.FirstLaunchChecks | src/gesturesesh/update_checker.py:178-181 | With no `update_check` or no `last_checked`, a check is due. |
| Updates.NotDueNoFetch | src/gesturesesh/update_checker.py:199-200 | A check that is not due returns nothing, and touches neither the network nor the configuration. |
| Updates.NothingRecorded | src/gesturesesh/update_checker.py:202-232 | A failed request, or a tag that is empty after stripping its 'v's, returns nothing and records nothing. |
| Updates.CheckRaises | src/gesturesesh/update_checker.py:192-234 | An exception escapes exactly when `_is_check_needed` raises, a due check gets a tag that is not a string, or the stripped tag does not parse. Nothing is then recorded or returned. |
| Updates.RecordsAndReports | src/gesturesesh/update_checker.py:211-229 | Once a tag parses, the time and tag are recorded and saved, newer or not. An update is reported exactly when the tag is newer, with its changelog notes. |
| Updates.RecordFacts | src/gesturesesh/update_checker.py:213-217 | `last_checked` and `cached_version` are recorded, and every other top-level key is kept. |
| Updates.RecordedThenDue | src/gesturesesh/update_checker.py:178-218 | Right after a recorded check, the next one is due exactly when more than 24 hours have passed. |
| Changelog.Match | src/gesturesesh/update_checker.py:144-156 | The regex search: the leftmost header at a line start, the shortest text after it up to the gap, and the shortest body up to the next `\n## ` or the end. |
| Changelog.MatchNone | src/gesturesesh/update_checker.py:153-156 | No match means that no header at a line start is followed anywhere by the gap. |
| Changelog.Group | src/gesturesesh/update_checker.py:157 | Group 1 follows the separator directly. It ends at the next `\n## ` section header or at the end of the text, and no section header starts inside it. |
| Changelog.StripAll | src/gesturesesh/update_checker.py:161-162 | Each line is stripped. |
| Changelog.StripShape | src/gesturesesh/update_checker.py:157-162 | `strip` gives a substring with no edge whitespace, and is idempotent. |
| Changelog.LinesShape | src/gesturesesh/update_checker.py:160-164 | The kept lines are nonempty, stripped, and have no line break. |
| Changelog.TidyLines | src/gesturesesh/update_checker.py:160-168 | Splitting the joined notes gives back the kept lines. |
| Changelog.TidyIdempotent | src/gesturesesh/update_checker.py:160-168 | Cleaning notes twice is cleaning them once. |
| Changelog.LinesOfStripped | src/gesturesesh/update_checker.py:157-166 | Stripped nonempty notes always keep a line, so the `if lines` test always passes. |
| Changelog.Patterns | src/gesturesesh/update_checker.py:130-142 | Eight header patterns, each starting with `## `. |
| Changelog.Attempts | src/gesturesesh/update_checker.py:144-153 | Twice as many attempts as patterns: pattern i is attempt 2i with a blank line after its header and attempt 2i+1 with a single line break. |
| Changelog.AttemptsFor | src/gesturesesh/update_checker.py:130-153 | Sixteen attempts per tag. |
| Changelog.FirstAccepted | src/gesturesesh/update_checker.py:144-169 | The first attempt that matches, with more than 10 stripped characters and a kept line. |
| Changelog.Notes | src/gesturesesh/update_checker.py:110-172 | A missing changelog gives the "Unable to fetch" message. With no accepted attempt the notes are the "Check the changelog" message. Otherwise they are the first accepted attempt's section, cleaned. |
| Changelog.PickNone | src/gesturesesh/update_checker.py:170-172 | With no accepted attempt the search finds nothing. |
| Changelog.PickFirst | src/gesturesesh/update_checker.py:153-169 | The first accepted attempt gives the notes, whose lines are its kept lines. |
| Changelog.PickClean | src/gesturesesh/update_checker.py:160-168 | Notes picked from an accepted section are clean: split at line breaks they are at least one line, each non-empty, stripped and on one line. |
| Changelog.LongCandidateAccepted | src/gesturesesh/update_checker.py:156-166 | Any match with more than 10 stripped characters is accepted. |

## Left out

**Outside the model.**
- Qt widgets, layout, fonts, window titles, status texts and the animated
  status-message queue: presentation only.
- `update_timer_display`, `display_time` and the float clock digits:
  presentation.
- Dot painting geometry beyond the widths, the palette, and the pulse
  animation's float strength.
- Audio: cues are recorded as values in `Session.State.played`. The
  mixer, mute and volume are not modelled.
- `scan_directories` and its `os.walk`, the file dialogs, and
  `open_image_directory`: file system work. Their results enter as
  parameters.
- The double-click `time_seconds += 0.7` in `eventFilter`. It leaves the
  half-second lattice, so `time_seconds == 0` is never reached afterwards.
- Mouse-press pause toggling and dragging in `eventFilter`: input handling
  beyond the review-mode cancel.
- `QTest.qWait` waits, and the events they let in part way through a
  slot: each tick and key is modelled as atomic.
- What PyQt does with an exception that escapes a slot: the model stops at
  `Raised`.
- Session.DisplayImage: it never raises, because the picture is computed
  apart from the session state, by `Frames.Prepare`. In the source
  `display_image` ends by calling `prepare_image_mods` (line 1745). A
  `Raised` there would escape `display_image` and skip the rest of its
  caller, for example `skip_image`'s `restart_timer` (line 1593). The
  session transitions do not model that path.
- Selection.IsWithinAllowedDirs: the path is compared as given. The
  source first applies `os.path.abspath` (GestureSesh.py:288), which joins
  a relative path to the working directory and collapses `.`, `..` and
  repeated separators. The model agrees with the source only on paths
  that are already absolute and normalised. The normalisation is not
  modelled.
- `convertScaleAbs`, Canny, the luma weights in float32, `cvtColor`
  numerics, scaling to the window, and 16-bit decodes. These are library
  numerics. Brightness/contrast and edges are parameters, and the luma is
  an uninterpreted function.
- Contrast is a `real`. The float rounding of `+ 0.1` steps is not
  modelled.
- `format_seconds` on fractional seconds and its millisecond rounding: the
  program only passes whole seconds.
- JSON reading and writing (`load_config`, `json.dump` formatting,
  `get_config_dir`), IO errors in `save_config`, JSON floats, and shelve
  in `Image_Queuer.py`.
- The HTTP request, `packaging.version` and `datetime.fromisoformat`: they
  are parameters.
- A timezone-aware `last_checked` would make the subtraction raise
  TypeError. This is not modelled.
- A release answer that is not a JSON object. This is not modelled.
- The `except` branch of `_fetch_changelog_notes`'s parsing (lines
  174-176) is not modelled. Nothing in the search or cleanup can raise on
  a string.
- `str.strip` and `lower` are ASCII only, and paths are POSIX paths.
- `check_update.py`: a network wrapper that repeats `update_checker.py`'s
  decision.
- The `SessionDisplay` in `Image_Queuer.py`: a superseded copy of the
  player.
- The `current >= total` branches of `load_next_image` (line 1655) and
  `previous_playlist_position` (line 2039). They cannot be taken under
  `Session.Inv`, because `load_entry` ends the session first.

**Weaker contracts.**
- Table.UpdateTotal: `Failed` covers any cell that does not parse. In the
  source, the `except` handler's own debug print then raises, because
  `QTableWidget.row()` is called without an argument. The model does not
  tell that escaping exception apart from a quiet return.
- Session.Tick: its own contract only covers the stopped or blocked timer.
  The running case is stated by `SessionFacts.TickSteps`.
- Session.LoadEntry: its own contract covers only the end of the schedule.
  Loading an entry is stated by `SessionFacts.LoadEntryFacts`. Past the
  end it runs the intended `end_session`. The code as written is
  `Session.LoadEntryAsWritten`.
- SessionFacts.LoadEntryEnds: states the intended `end_session` (the third
  Finding). As written the load raises instead, which is
  `SessionFacts.LoadEntryAsWrittenCases`.
- SessionFacts.AdvancePastLastEntry: states the intended `end_session`,
  which arms the close countdown. As written the advance raises before
  that, which is `SessionFacts.AdvancePastLastAsWritten`.
- SessionFacts.TickSteps: states the intended tick, whose only exception
  is the IndexError past the playlist. The as-written tick also raises
  AttributeError at the end of the schedule, which is
  `SessionFacts.TickStepsAsWritten`.
- Frames.Prepare: its own contract covers only readers that give no
  frame. The full refusal condition is `Frames.RefusedExactly`.
- LegacyQueuer.GrabSchedule: its own contract bounds the shape only. The
  contents are stated by `LegacyQueuer.GrabScheduleOk`,
  `LegacyQueuer.GrabScheduleCells` and `LegacyQueuer.GrabScheduleBreak`.
- LegacyQueuer.UpdateTotal: its own contract orders the two totals only.
  The values are stated by `LegacyQueuer.UpdateTotalAgrees`.

## Findings

| source | as written | input that shows it | evidently intended | confidence | as-written member | corrected member |
|---|---|---|---|---|---|---|
| GestureSesh.py:1101-1109 | `insert_breaks` inserts each marker at the running image count and does not count the markers already inserted. A later break entry's marker lands before earlier entries' images. | Entries 1 image, break, 1 image, break over files a, b, c: the markers land in slots 1 and 2, but the second break entry starts at slot 3 | Each marker at its entry's start slot, so the player meets every break where the schedule puts it | not executed | Schedule.SecondBreakLandsEarly | Schedule.InsertIntendedIsLayout |
| GestureSesh.py:1572-1593 | `skip_image` compares items with the bare name `"break.png"`, but the playlist holds `":/break/break.png"`. Skipping on a break does not refuse, and a real marker can be swapped into the current slot. | Playlist [a.png, marker], position 0, entry with one image left: skip swaps the marker in | Refuse on a marker, and never swap a marker | not executed | SessionFacts.SkipAsWrittenPullsBreak | SessionFacts.SkipKeepsMarkers |
| GestureSesh.py:1639-1642 | `end_session` calls `self.image_progress.maximum()`, but `DotIndicator` (dot_indicator.py) has no such method. AttributeError is raised before the close timer starts. | Any session that reaches the end of its schedule | Fill both dot rows and start the 15 s close countdown | not executed | SessionFacts.TickStepsAsWritten | SessionFacts.EndSessionCloses |

The first finding has a consequence. A break entry whose slot holds no
marker starts with −1 images to go (`SessionFacts.ZeroEntryWithoutMarker`,
GestureSesh.py:1616). Each advance then counts down further instead of
reaching 0 (`SessionFacts.NegativeItemsStayNegative`), so that entry does
not end before the playlist does. The model keeps the as-written
`Schedule.InsertBreaks` as the function the rest of the model refers to
for the main window, because that is what the program runs. The intended
playlist shape is `Schedule.Layout`.
