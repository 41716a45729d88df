/** The file selection of the main window: which files `check_files`
    accepts, the allowed-directory test of `scan_directories`, duplicate
    removal and the shuffle. The file system enters as parameters: `isFile`
    stands for `os.path.isfile`, `stat` for `os.stat` (`None` when it
    raises), and paths are taken as already absolute. */
module Selection {
  import opened Maybe
  import opened PyText
  import PyList

  /** The extensions the window accepts, compared in lower case. */
  const ValidTypes: set<string> := {".bmp", ".jpg", ".jpeg", ".png"}

  /** `os.path.splitext(file)[1].lower()` is a supported type. */
  predicate HasValidType(file: string)
  {
    Lower(SplitExt(file)) in ValidTypes
  }

  predicate Accepted(file: string, isFile: string -> bool)
  {
    HasValidType(file) && isFile(file)
  }

  datatype Checked = Checked(valid: seq<string>, invalid: seq<string>)

  /** `check_files`: each name goes to exactly one of the two lists, in the
      order given; a name is valid when its extension is supported and it
      names a regular file. */
  function CheckFiles(files: seq<string>, isFile: string -> bool): (r: Checked)
    ensures |r.valid| + |r.invalid| == |files|
  {
    if files == [] then Checked([], [])
    else
      var rest := CheckFiles(files[1..], isFile);
      if Accepted(files[0], isFile) then Checked([files[0]] + rest.valid, rest.invalid)
      else Checked(rest.valid, [files[0]] + rest.invalid)
  }

  /** The two lists are the accepted and the refused names, each in the
      original order (so every valid name is accepted and every invalid
      one refused). */
  lemma {:induction false} CheckFilesSplits(files: seq<string>, isFile: string -> bool)
    ensures CheckFiles(files, isFile).valid == PyList.Filter(files, f => Accepted(f, isFile))
    ensures CheckFiles(files, isFile).invalid == PyList.Filter(files, f => !Accepted(f, isFile))
  {
    if files != [] {
      CheckFilesSplits(files[1..], isFile);
    }
  }

  /** No name is lost or duplicated by the split. */
  lemma CheckFilesPartition(files: seq<string>, isFile: string -> bool)
    ensures multiset(CheckFiles(files, isFile).valid) + multiset(CheckFiles(files, isFile).invalid)
            == multiset(files)
  {
    CheckFilesSplits(files, isFile);
    PyList.FilterPartition(files, f => Accepted(f, isFile), f => !Accepted(f, isFile));
  }

  /** For `dir/stem.ext` the extension decides, in any letter case:
      `photo.JPG` is accepted like `photo.jpg`. */
  lemma ExtensionDecides(dir: string, stem: string, ext: string)
    requires dir != [] && dir[|dir| - 1] == '/'
    requires Free(stem, '/') && Free(ext, '/') && Free(ext, '.')
    requires exists i :: 0 <= i < |stem| && stem[i] != '.'
    ensures HasValidType(dir + (stem + "." + ext)) <==> "." + Lower(ext) in ValidTypes
  {
    SplitExtOf(dir, stem, ext);
    assert ("." + ext)[1..] == ext;
  }

  lemma UpperCaseExtensions()
    ensures "." + Lower("JPG") == ".jpg" && "." + Lower("JPEG") == ".jpeg"
    ensures "." + Lower("PNG") == ".png" && "." + Lower("BMP") == ".bmp"
  {
    LowerAt("JPG");
    LowerAt("JPEG");
    LowerAt("PNG");
    LowerAt("BMP");
  }

  /** A hidden file named only by an extension, such as `.png`, has no
      extension and is refused. */
  lemma HiddenFileRefused(dir: string, ext: string)
    requires dir != [] && dir[|dir| - 1] == '/'
    requires Free(ext, '/') && Free(ext, '.')
    ensures !HasValidType(dir + ("." + ext))
  {
    assert Lower("") !in ValidTypes;
    SplitExtHidden(dir, ext);
  }

  /** A dot in a folder name is not an extension: `a.png/b` is refused. */
  lemma DotlessNameRefused(dir: string, name: string)
    requires dir != [] && dir[|dir| - 1] == '/'
    requires Free(name, '/') && Free(name, '.')
    ensures !HasValidType(dir + name)
  {
    assert Lower("") !in ValidTypes;
    SplitExtNone(dir, name);
  }

  // ---------------------------------------------------------------------
  // is_within_allowed_dirs
  // ---------------------------------------------------------------------

  /** `path` is the folder itself or lies below it: a plain string prefix
      is not enough, the next character has to be the separator. */
  predicate InFolder(path: string, folder: string)
  {
    path == folder || StartsWith(path, folder + "/")
  }

  /** The `any(...)` over the allowed folders, one folder at a time. The
      source first passes the path through `os.path.abspath`; here the
      path is taken as already absolute and normalised. */
  function IsWithinAllowedDirs(path: string, allowed: seq<string>): (r: bool)
    ensures r <==> exists k :: 0 <= k < |allowed| && InFolder(path, allowed[k])
  {
    if allowed == [] then false
    else InFolder(path, allowed[0]) || IsWithinAllowedDirs(path, allowed[1..])
  }

  /** Being inside a folder means the folder is a prefix that ends at the
      end of the path or at a separator. */
  lemma InFolderBoundary(path: string, folder: string)
    ensures InFolder(path, folder) <==>
              |folder| <= |path| && path[..|folder|] == folder &&
              (|path| == |folder| || path[|folder|] == '/')
  {
    if |folder| <= |path| && path[..|folder|] == folder && |path| > |folder| && path[|folder|] == '/' {
      assert path[..|folder| + 1] == folder + "/";
    }
  }

  /** A sibling whose name merely starts with an allowed folder's name is
      not inside it, while a file below the folder is. */
  lemma AllowedDirsExample()
    ensures !IsWithinAllowedDirs("/pics2/a.png", ["/pics"])
    ensures IsWithinAllowedDirs("/pics/a.png", ["/pics"])
  {
    InFolderBoundary("/pics2/a.png", "/pics");
    InFolderBoundary("/pics/a.png", "/pics");
    assert "/pics/a.png"[..5] == "/pics";
  }

  // ---------------------------------------------------------------------
  // remove_dupes
  // ---------------------------------------------------------------------

  /** What `os.stat` tells apart: device and inode. */
  type Stat = (int, int)

  /** The duplicate key `(st_dev, st_ino, path)` of a file that can be
      stat-ed. */
  function Key(file: string, st: Stat): (int, int, string)
  {
    (st.0, st.1, file)
  }

  /** The loop of `remove_dupes` from some point on, with the keys seen so
      far: a file that cannot be stat-ed is always kept, any other is kept
      the first time its key comes up. */
  function Dedup(files: seq<string>, stat: string -> Option<Stat>, seen: set<(int, int, string)>): (r: seq<string>)
    ensures |r| <= |files|
  {
    if files == [] then []
    else
      var f := files[0];
      var rest := Dedup(files[1..], stat, if stat(f).Some? then seen + {Key(f, stat(f).value)} else seen);
      if stat(f).Some? && Key(f, stat(f).value) in seen then rest else [f] + rest
  }

  /** What the loop keeps: only files of the selection, each stat-able file
      at most once and not one already seen, and every file whose key was
      not seen before. */
  lemma {:induction false} DedupKeeps(files: seq<string>, stat: string -> Option<Stat>, seen: set<(int, int, string)>)
    ensures forall k :: 0 <= k < |Dedup(files, stat, seen)| ==> Dedup(files, stat, seen)[k] in files
    ensures forall k :: 0 <= k < |Dedup(files, stat, seen)| && stat(Dedup(files, stat, seen)[k]).Some? ==>
              Key(Dedup(files, stat, seen)[k], stat(Dedup(files, stat, seen)[k]).value) !in seen
    ensures forall i, j :: 0 <= i < j < |Dedup(files, stat, seen)| && stat(Dedup(files, stat, seen)[i]).Some?
              ==> Dedup(files, stat, seen)[i] != Dedup(files, stat, seen)[j]
    ensures forall x :: x in files && (stat(x).None? || Key(x, stat(x).value) !in seen) ==> x in Dedup(files, stat, seen)
  {
    if files != [] {
      var f := files[0];
      var seen' := if stat(f).Some? then seen + {Key(f, stat(f).value)} else seen;
      var rest := Dedup(files[1..], stat, seen');
      DedupKeeps(files[1..], stat, seen');
      assert forall x :: x in files[1..] ==> x in files;
      assert forall x :: x in files ==> x == f || x in files[1..];
      if !(stat(f).Some? && Key(f, stat(f).value) in seen) {
        var r := [f] + rest;
        assert r == Dedup(files, stat, seen);
        assert forall k :: 1 <= k < |r| ==> r[k] == rest[k - 1];
      }
    }
  }

  /** The message `remove_dupes` shows. */
  datatype DupesStatus = NoFiles | Removed(count: nat) | NoDuplicates

  datatype Deduped = Deduped(files: seq<string>, status: DupesStatus)

  /** `remove_dupes`: an empty selection only shows a message; otherwise
      the selection keeps the first occurrence of each file and the message
      reports how many entries went. */
  function RemoveDupes(files: seq<string>, stat: string -> Option<Stat>): (r: Deduped)
    ensures files == [] <==> r.status == NoFiles
    ensures r.status.Removed? ==> r.status.count == |files| - |r.files| > 0
    ensures r.status == NoDuplicates ==> |r.files| == |files|
  {
    if files == [] then Deduped(files, NoFiles)
    else
      var unique := Dedup(files, stat, {});
      if |files| - |unique| > 0 then Deduped(unique, Removed(|files| - |unique|))
      else Deduped(unique, NoDuplicates)
  }

  /** The kept files: every file of the selection is still there, a file
      that can be stat-ed is there once, and nothing comes in. */
  lemma RemoveDupesKeepsEachOnce(files: seq<string>, stat: string -> Option<Stat>)
    ensures forall x :: x in files <==> x in RemoveDupes(files, stat).files
    ensures forall i, j ::
              0 <= i < j < |RemoveDupes(files, stat).files| && stat(RemoveDupes(files, stat).files[i]).Some?
              ==> RemoveDupes(files, stat).files[i] != RemoveDupes(files, stat).files[j]
  {
    DedupKeeps(files, stat, {});
  }

  /** Files that cannot be stat-ed are all kept, however often they occur. */
  lemma {:induction false} DedupKeepsUnstatable(files: seq<string>, stat: string -> Option<Stat>,
                                                seen: set<(int, int, string)>, x: string)
    requires stat(x).None?
    ensures multiset(Dedup(files, stat, seen))[x] == multiset(files)[x]
  {
    if files != [] {
      var f := files[0];
      DedupKeepsUnstatable(files[1..], stat, if stat(f).Some? then seen + {Key(f, stat(f).value)} else seen, x);
      assert files == [f] + files[1..];
    }
  }

  /** A selection without repeated files is left as it is. */
  lemma {:induction false} DedupOfDistinct(files: seq<string>, stat: string -> Option<Stat>,
                                           seen: set<(int, int, string)>)
    requires forall i, j :: 0 <= i < j < |files| && stat(files[i]).Some? ==> files[i] != files[j]
    requires forall k :: 0 <= k < |files| && stat(files[k]).Some? ==> Key(files[k], stat(files[k]).value) !in seen
    ensures Dedup(files, stat, seen) == files
  {
    if files != [] {
      var f := files[0];
      var seen' := if stat(f).Some? then seen + {Key(f, stat(f).value)} else seen;
      assert forall k :: 1 <= k < |files| ==> files[1..][k - 1] == files[k];
      DedupOfDistinct(files[1..], stat, seen');
    }
  }

  /** Removing duplicates twice removes nothing more. */
  lemma RemoveDupesIdempotent(files: seq<string>, stat: string -> Option<Stat>)
    requires files != []
    ensures RemoveDupes(RemoveDupes(files, stat).files, stat).files == RemoveDupes(files, stat).files
    ensures RemoveDupes(RemoveDupes(files, stat).files, stat).status == NoDuplicates
  {
    var once := Dedup(files, stat, {});
    DedupKeeps(files, stat, {});
    DedupOfDistinct(once, stat, {});
  }

  /** Every name but `x` stats to the same device and inode. */
  function ExampleStat(file: string): Option<Stat>
  {
    if file == "x" then None else Some((1, 2))
  }

  /** Two entries naming the same file become one; an entry that cannot be
      stat-ed stays twice. */
  lemma RemoveDupesExample()
    ensures RemoveDupes(["a", "b", "a", "x", "x"], ExampleStat) == Deduped(["a", "b", "x", "x"], Removed(1))
  {
    var files := ["a", "b", "a", "x", "x"];
    var s1: set<(int, int, string)> := {(1, 2, "a")};
    var s2 := s1 + {(1, 2, "b")};
    assert files[1..] == ["b", "a", "x", "x"];
    assert ["b", "a", "x", "x"][1..] == ["a", "x", "x"];
    assert ["a", "x", "x"][1..] == ["x", "x"];
    assert ["x", "x"][1..] == ["x"];
    assert ["x"][1..] == [];
    assert Dedup([], ExampleStat, s2) == [];
    assert Dedup(["x"], ExampleStat, s2) == ["x"];
    assert Dedup(["x", "x"], ExampleStat, s2) == ["x", "x"];
    assert s2 + {Key("a", (1, 2))} == s2;
    assert Dedup(["a", "x", "x"], ExampleStat, s2) == ["x", "x"];
    assert Dedup(["b", "a", "x", "x"], ExampleStat, s1) == ["b", "x", "x"];
    assert {} + {Key("a", (1, 2))} == s1;
    assert Dedup(files, ExampleStat, {}) == ["a", "b", "x", "x"];
  }

  // ---------------------------------------------------------------------
  // randomize_items
  // ---------------------------------------------------------------------

  /** What `random.randint(0, len(copy) - 1)` may return at each of the
      steps of the shuffle of `n` files. */
  predicate ValidPicks(picks: seq<nat>, n: nat)
  {
    |picks| == n && forall k :: 0 <= k < n ==> picks[k] < n - k
  }

  /** `randomize_items`: pop the picked index from the remaining copy until
      it is empty. The result is a rearrangement of the selection, and
      picking the first remaining file every time keeps the order. */
  method RandomizeItems(files: seq<string>, picks: seq<nat>) returns (r: seq<string>)
    requires ValidPicks(picks, |files|)
    ensures |r| == |files|
    ensures multiset(r) == multiset(files)
    ensures (forall k :: 0 <= k < |picks| ==> picks[k] == 0) ==> r == files
  {
    var copy := files;
    r := [];
    var k := 0;
    ghost var zeros := forall p :: 0 <= p < |picks| ==> picks[p] == 0;
    while |copy| > 0
      invariant k + |copy| == |files|
      invariant multiset(r) + multiset(copy) == multiset(files)
      invariant |r| == k
      invariant zeros ==> r == files[..k] && copy == files[k..]
      decreases |copy|
    {
      var i := picks[k];
      PickStep(files, r, copy, i, zeros);
      r := r + [copy[i]];
      copy := PyList.RemoveAt(copy, i);
      k := k + 1;
    }
  }

  /** One pop of the loop keeps the two lists a split of the selection,
      and popping the front keeps the order. */
  lemma PickStep(files: seq<string>, r: seq<string>, copy: seq<string>, i: nat, front: bool)
    requires i < |copy| && |r| + |copy| == |files|
    requires multiset(r) + multiset(copy) == multiset(files)
    requires front ==> i == 0 && r == files[..|r|] && copy == files[|r|..]
    ensures multiset(r + [copy[i]]) + multiset(PyList.RemoveAt(copy, i)) == multiset(files)
    ensures front ==> r + [copy[i]] == files[..|r| + 1] && PyList.RemoveAt(copy, i) == files[|r| + 1..]
  {
    PyList.RemoveAtCounts(copy, i);
    if front {
      assert files[..|r| + 1] == files[..|r|] + [copy[0]];
    }
  }
}
