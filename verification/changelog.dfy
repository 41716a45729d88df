/** The release notes the update checker takes from the changelog: the
    section headed by the new version, found by a fixed list of header
    patterns, cleaned line by line; or one of two fixed messages. */
module Changelog {
  import opened Maybe
  import PyText
  import PyList

  // ---------------------------------------------------------------------
  // Literal searches
  // ---------------------------------------------------------------------

  /** `needle` occurs in `c` at index `k`. */
  predicate At(c: string, needle: string, k: int)
  {
    0 <= k && k + |needle| <= |c| && c[k..k + |needle|] == needle
  }

  /** Index `k` starts a line, where `^` matches under `re.MULTILINE`. */
  predicate LineStart(c: string, k: int)
  {
    k == 0 || (0 < k <= |c| && c[k - 1] == '\n')
  }

  /** The first occurrence of `needle` at or after `from`. */
  function FindFrom(c: string, needle: string, from: nat): (r: Option<nat>)
    ensures r.Some? ==> from <= r.value && At(c, needle, r.value)
    ensures r.Some? ==> forall k :: from <= k < r.value ==> !At(c, needle, k)
    ensures r.None? ==> forall k :: from <= k ==> !At(c, needle, k)
    decreases |c| - from
  {
    if from + |needle| > |c| then None
    else if c[from..from + |needle|] == needle then Some(from)
    else FindFrom(c, needle, from + 1)
  }

  /** The first line that starts with `p`, at or after `from`. */
  function HeaderFrom(c: string, p: string, from: nat): (r: Option<nat>)
    ensures r.Some? ==> from <= r.value && LineStart(c, r.value) && At(c, p, r.value)
    ensures r.Some? ==> forall k :: from <= k < r.value ==> !(LineStart(c, k) && At(c, p, k))
    ensures r.None? ==> forall k :: from <= k ==> !(LineStart(c, k) && At(c, p, k))
    decreases |c| - from
  {
    if from + |p| > |c| then None
    else if LineStart(c, from) && c[from..from + |p|] == p then Some(from)
    else HeaderFrom(c, p, from + 1)
  }

  // ---------------------------------------------------------------------
  // The two regular expressions
  // ---------------------------------------------------------------------

  /** What separates a header line from its section: an empty line for the
      first expression tried, a line break for the second. */
  const BlankLine: string := "\n\n"
  const LineBreak: string := "\n"

  /** The start of the next section, where the lazy group stops. */
  const NextHeader: string := "\n## "

  /** Where a match of `^P.*?G(.*?)(?=\n## |\Z)` under `re.MULTILINE`
      and `re.DOTALL` lies: the header at `header`, the separator at `gap`,
      the group from `gap + |G|` to `end`. */
  datatype Span = Span(header: nat, gap: nat, end: nat)

  /** `re.search` of that expression for a literal header `p` and a
      separator `g`. The leftmost line starting with `p` is taken; the lazy
      `.*?` stops at the first separator after the header text, and the
      lazy group at the first following section header, or at the end of
      the text. */
  function Match(c: string, p: string, g: string): (r: Option<Span>)
    ensures r.Some? ==> LineStart(c, r.value.header) && At(c, p, r.value.header) &&
                        forall k :: 0 <= k < r.value.header ==> !(LineStart(c, k) && At(c, p, k))
    ensures r.Some? ==> r.value.header + |p| <= r.value.gap && At(c, g, r.value.gap) &&
                        forall k :: r.value.header + |p| <= k < r.value.gap ==> !At(c, g, k)
    ensures r.Some? ==> r.value.gap + |g| <= r.value.end <= |c| &&
                        (r.value.end == |c| || At(c, NextHeader, r.value.end)) &&
                        forall k :: r.value.gap + |g| <= k < r.value.end ==> !At(c, NextHeader, k)
  {
    match HeaderFrom(c, p, 0)
    case None => None
    case Some(i) =>
      match FindFrom(c, g, i + |p|)
      case None => None
      case Some(a) =>
        var e := FindFrom(c, NextHeader, a + |g|).GetOr(|c|);
        Some(Span(i, a, e))
  }

  /** When `Match` finds nothing, the expression matches nowhere: no line
      starting with `p` is followed anywhere by the separator. */
  lemma MatchNone(c: string, p: string, g: string)
    requires Match(c, p, g).None?
    ensures forall j, k :: LineStart(c, j) && At(c, p, j) && j + |p| <= k ==> !At(c, g, k)
  {
    var h := HeaderFrom(c, p, 0);
    if h.Some? {
      assert FindFrom(c, g, h.value + |p|).None?;
      forall j, k | LineStart(c, j) && At(c, p, j) && j + |p| <= k
        ensures !At(c, g, k)
      {
        assert h.value <= j;
      }
    }
  }

  /** The text of group 1: it follows the separator directly, runs up to
      the next section header or the end of the text, and no section
      header starts inside it. */
  function Group(c: string, p: string, g: string): (r: Option<string>)
    ensures r.Some? <==> Match(c, p, g).Some?
    ensures r.Some? ==> var from := Match(c, p, g).value.gap + |g|;
              At(c, g, from - |g|) && At(c, r.value, from) &&
              (from + |r.value| == |c| || At(c, NextHeader, from + |r.value|)) &&
              forall k :: from <= k < from + |r.value| ==> !At(c, NextHeader, k)
  {
    match Match(c, p, g)
    case None => None
    case Some(m) => Some(c[m.gap + |g|..m.end])
  }

  // ---------------------------------------------------------------------
  // Cleaning the notes
  // ---------------------------------------------------------------------

  predicate NonEmpty(s: string) { |s| > 0 }

  function StripAll(lines: seq<string>): (r: seq<string>)
    ensures |r| == |lines|
    ensures forall k :: 0 <= k < |r| ==> r[k] == PyText.Strip(lines[k])
  {
    if lines == [] then [] else [PyText.Strip(lines[0])] + StripAll(lines[1..])
  }

  /** The lines kept: each line stripped, empty ones dropped. */
  function Lines(notes: string): seq<string>
  {
    PyList.Filter(StripAll(PyText.Split(notes, '\n')), NonEmpty)
  }

  /** The cleaned notes: the kept lines joined by line breaks. */
  function Tidy(notes: string): string
  {
    PyText.Join(Lines(notes), '\n')
  }

  /** `LStrip` drops a prefix and `RStrip` a suffix. */
  lemma {:induction false} LStripSuffix(s: string)
    ensures PyText.LStrip(s) == s[|s| - |PyText.LStrip(s)|..]
    decreases |s|
  {
    if |s| > 0 && PyText.IsSpace(s[0]) {
      LStripSuffix(s[1..]);
    }
  }

  lemma {:induction false} RStripPrefix(s: string)
    ensures PyText.RStrip(s) == s[..|PyText.RStrip(s)|]
    decreases |s|
  {
    if |s| > 0 && PyText.IsSpace(s[|s| - 1]) {
      RStripPrefix(s[..|s| - 1]);
    }
  }

  /** Stripping a string whose first character is not white space leaves
      that character in front. */
  lemma {:induction false} RStripKeepsFirst(s: string)
    requires |s| > 0 && !PyText.IsSpace(s[0])
    ensures |PyText.RStrip(s)| > 0
    decreases |s|
  {
    if PyText.IsSpace(s[|s| - 1]) {
      RStripKeepsFirst(s[..|s| - 1]);
    }
  }

  /** A stripped string is a piece of the original, starts and ends with
      no white space, and stripping it again changes nothing. */
  lemma StripShape(s: string)
    ensures var r := PyText.Strip(s);
            (exists i, j :: 0 <= i <= j <= |s| && r == s[i..j]) &&
            (|r| > 0 ==> !PyText.IsSpace(r[0]) && !PyText.IsSpace(r[|r| - 1])) &&
            PyText.Strip(r) == r
  {
    var t := PyText.RStrip(s);
    var r := PyText.LStrip(t);
    RStripPrefix(s);
    LStripSuffix(t);
    assert r == s[|t| - |r|..|t|];
    if |r| > 0 {
      assert r[|r| - 1] == t[|t| - 1];
    }
    PyText.StripOfUnpadded(r);
  }

  lemma StripFree(s: string, c: char)
    requires PyText.Free(s, c)
    ensures PyText.Free(PyText.Strip(s), c)
  {
    StripShape(s);
  }

  /** Every kept line is non-empty, already stripped and holds no line
      break. */
  lemma LinesShape(notes: string)
    ensures forall k :: 0 <= k < |Lines(notes)| ==>
              |Lines(notes)[k]| > 0 && PyText.Strip(Lines(notes)[k]) == Lines(notes)[k] &&
              PyText.Free(Lines(notes)[k], '\n')
  {
    var pieces := PyText.Split(notes, '\n');
    var stripped := StripAll(pieces);
    PyText.SplitPiecesFree(notes, '\n');
    forall k | 0 <= k < |stripped|
      ensures PyText.Strip(stripped[k]) == stripped[k] && PyText.Free(stripped[k], '\n')
    {
      StripShape(pieces[k]);
      StripFree(pieces[k], '\n');
    }
    FilterKeepsAll(stripped);
  }

  /** Whatever holds of every element holds of every kept one. */
  lemma {:induction false} FilterKeepsAll(xs: seq<string>)
    requires forall k :: 0 <= k < |xs| ==> PyText.Strip(xs[k]) == xs[k] && PyText.Free(xs[k], '\n')
    ensures forall k :: 0 <= k < |PyList.Filter(xs, NonEmpty)| ==>
              PyText.Strip(PyList.Filter(xs, NonEmpty)[k]) == PyList.Filter(xs, NonEmpty)[k] &&
              PyText.Free(PyList.Filter(xs, NonEmpty)[k], '\n')
  {
    if xs != [] {
      FilterKeepsAll(xs[1..]);
      var rest := PyList.Filter(xs[1..], NonEmpty);
      if NonEmpty(xs[0]) {
        assert PyList.Filter(xs, NonEmpty) == [xs[0]] + rest;
        assert forall k :: 1 <= k < |[xs[0]] + rest| ==> ([xs[0]] + rest)[k] == rest[k - 1];
      }
    }
  }

  /** The cleaned notes split back into exactly the kept lines: no line of
      the result is empty or padded with white space. */
  lemma TidyLines(notes: string)
    requires |Lines(notes)| > 0
    ensures PyText.Split(Tidy(notes), '\n') == Lines(notes)
    ensures forall k :: 0 <= k < |PyText.Split(Tidy(notes), '\n')| ==>
              var line := PyText.Split(Tidy(notes), '\n')[k];
              |line| > 0 && PyText.Strip(line) == line
  {
    LinesShape(notes);
    PyText.SplitJoin(Lines(notes), '\n');
  }

  /** Cleaning cleaned notes changes nothing. */
  lemma TidyIdempotent(notes: string)
    ensures Tidy(Tidy(notes)) == Tidy(notes)
  {
    var l := Lines(notes);
    if |l| > 0 {
      LinesShape(notes);
      PyText.SplitJoin(l, '\n');
      StripAllFixed(l);
      PyList.FilterAllKept(l, NonEmpty);
    } else {
      assert Tidy(notes) == "";
      assert PyText.Split("", '\n') == [""];
      assert StripAll([""]) == [""];
    }
  }

  lemma StripAllFixed(l: seq<string>)
    requires forall k :: 0 <= k < |l| ==> PyText.Strip(l[k]) == l[k]
    ensures StripAll(l) == l
  {
  }

  /** A stripped text with a character in it always keeps a line, so the
      source's check that some line survived never fails. */
  lemma LinesOfStripped(notes: string)
    requires |notes| > 0 && !PyText.IsSpace(notes[0])
    ensures |Lines(notes)| > 0
  {
    var pieces := PyText.Split(notes, '\n');
    var k := PyText.FindChar(notes, '\n');
    assert k > 0;
    assert pieces[0] == notes[..k];
    var first := pieces[0];
    assert first[0] == notes[0];
    RStripKeepsFirst(first);
    RStripPrefix(first);
    var t := PyText.RStrip(first);
    assert t[0] == first[0];
    assert PyText.LStrip(t) == t;
    var stripped := StripAll(pieces);
    assert NonEmpty(stripped[0]);
    assert stripped == [stripped[0]] + stripped[1..];
  }

  // ---------------------------------------------------------------------
  // Choosing the section
  // ---------------------------------------------------------------------

  /** The header patterns, in the order they are tried, for a version
      with its leading 'v's removed. */
  function Patterns(clean: string): (r: seq<string>)
    ensures |r| == 8
    ensures forall k :: 0 <= k < 8 ==> PyText.StartsWith(r[k], "## ")
  {
    ["## [v" + clean + "] -", "## [" + clean + "] -", "## [v" + clean + "]", "## [" + clean + "]",
     "## v" + clean + " -", "## " + clean + " -", "## v" + clean, "## " + clean]
  }

  /** One expression tried: a header pattern with one of the two
      separators. */
  datatype Attempt = Attempt(pattern: string, gap: string)

  /** Each pattern is tried first with an empty line after its header,
      then with a line break. */
  function Attempts(patterns: seq<string>): (r: seq<Attempt>)
    ensures |r| == 2 * |patterns|
    ensures forall i :: 0 <= i < |patterns| ==>
              r[2 * i] == Attempt(patterns[i], BlankLine) && r[2 * i + 1] == Attempt(patterns[i], LineBreak)
  {
    seq(2 * |patterns|, k requires 0 <= k < 2 * |patterns| =>
      Attempt(patterns[k / 2], if k % 2 == 0 then BlankLine else LineBreak))
  }

  /** The stripped group of an attempt. */
  function Candidate(c: string, a: Attempt): Option<string>
  {
    match Group(c, a.pattern, a.gap)
    case None => None
    case Some(text) => Some(PyText.Strip(text))
  }

  /** An attempt that wins: it matches, its stripped group is longer than
      ten characters, and a line survives the cleaning. */
  predicate Accepted(c: string, a: Attempt)
  {
    Candidate(c, a).Some? && |Candidate(c, a).value| > 10 && |Lines(Candidate(c, a).value)| > 0
  }

  /** The index of the first accepted attempt. */
  function FirstAccepted(c: string, attempts: seq<Attempt>, from: nat): (r: Option<nat>)
    requires from <= |attempts|
    ensures r.Some? ==> from <= r.value < |attempts| && Accepted(c, attempts[r.value])
    ensures r.Some? ==> forall k :: from <= k < r.value ==> !Accepted(c, attempts[k])
    ensures r.None? ==> forall k :: from <= k < |attempts| ==> !Accepted(c, attempts[k])
  {
    FirstWhere(attempts, a => Accepted(c, a), from)
  }

  /** The index of the first element from `from` on that passes `test`. */
  function FirstWhere<T>(xs: seq<T>, test: T -> bool, from: nat): (r: Option<nat>)
    requires from <= |xs|
    ensures r.Some? ==> from <= r.value < |xs| && test(xs[r.value])
    ensures r.Some? ==> forall k :: from <= k < r.value ==> !test(xs[k])
    ensures r.None? ==> forall k :: from <= k < |xs| ==> !test(xs[k])
    decreases |xs| - from
  {
    if from == |xs| then None
    else if test(xs[from]) then Some(from)
    else FirstWhere(xs, test, from + 1)
  }

  /** The message when the changelog cannot be read. */
  function Unavailable(tag: string): string
  {
    "New version " + tag + " is available! Unable to fetch detailed release notes."
  }

  /** The message when no section fits. */
  function NotFound(tag: string): string
  {
    "New version " + tag + " is available! Check the changelog for details."
  }

  /** The cleaned section of the first accepted attempt, if any. */
  function Pick(c: string, attempts: seq<Attempt>): Option<string>
  {
    match FirstAccepted(c, attempts, 0)
    case None => None
    case Some(k) => Some(Tidy(Candidate(c, attempts[k]).value))
  }

  /** The attempts for a release tag: its leading 'v's removed, the eight
      header patterns, each with both separators. */
  function AttemptsFor(tag: string): (r: seq<Attempt>)
    ensures |r| == 16
  {
    Attempts(Patterns(PyText.LStripChar(tag, 'v')))
  }

  /** `_fetch_changelog_notes`, with the file's text as a parameter (`None`
      when the file is missing or cannot be read): the cleaned group of the
      first accepted attempt, or one of the two messages. */
  function Notes(tag: string, changelog: Option<string>): (r: string)
    ensures changelog.None? ==> r == Unavailable(tag)
    ensures changelog.Some? && (forall j :: 0 <= j < 16 ==> !Accepted(changelog.value, AttemptsFor(tag)[j])) ==>
              r == NotFound(tag)
    ensures changelog.Some? ==>
              forall k :: 0 <= k < 16 && Accepted(changelog.value, AttemptsFor(tag)[k]) &&
                          (forall j :: 0 <= j < k ==> !Accepted(changelog.value, AttemptsFor(tag)[j])) ==>
                r == Tidy(Candidate(changelog.value, AttemptsFor(tag)[k]).value)
  {
    match changelog
    case None => Unavailable(tag)
    case Some(c) =>
      PickCases(c, AttemptsFor(tag));
      Pick(c, AttemptsFor(tag)).GetOr(NotFound(tag))
  }

  /** Nothing is picked when no attempt is accepted; otherwise the first
      accepted attempt's cleaned section is. */
  lemma PickCases(c: string, attempts: seq<Attempt>)
    ensures (forall j :: 0 <= j < |attempts| ==> !Accepted(c, attempts[j])) ==> Pick(c, attempts).None?
    ensures forall k :: 0 <= k < |attempts| && Accepted(c, attempts[k]) &&
                        (forall j :: 0 <= j < k ==> !Accepted(c, attempts[j])) ==>
              Pick(c, attempts) == Some(Tidy(Candidate(c, attempts[k]).value))
  {
    if forall j :: 0 <= j < |attempts| ==> !Accepted(c, attempts[j]) {
      PickNone(c, attempts);
    }
    forall k | 0 <= k < |attempts| && Accepted(c, attempts[k]) &&
               (forall j :: 0 <= j < k ==> !Accepted(c, attempts[j]))
      ensures Pick(c, attempts) == Some(Tidy(Candidate(c, attempts[k]).value))
    {
      PickFirst(c, attempts, k);
    }
  }

  /** With no accepted attempt nothing is picked. */
  lemma PickNone(c: string, attempts: seq<Attempt>)
    requires forall k :: 0 <= k < |attempts| ==> !Accepted(c, attempts[k])
    ensures Pick(c, attempts).None?
  {
    assert FirstAccepted(c, attempts, 0).None?;
  }

  /** With an accepted attempt, the first one's section is picked, cleaned
      into non-empty stripped lines. */
  lemma PickFirst(c: string, attempts: seq<Attempt>, k: nat)
    requires k < |attempts| && Accepted(c, attempts[k])
    requires forall j :: 0 <= j < k ==> !Accepted(c, attempts[j])
    ensures var notes := Candidate(c, attempts[k]).value;
            Pick(c, attempts) == Some(Tidy(notes)) && PyText.Split(Tidy(notes), '\n') == Lines(notes)
  {
    assert FirstAccepted(c, attempts, 0) == Some(k);
    TidyLines(Candidate(c, attempts[k]).value);
  }

  /** Notes picked from a section are clean: split at line breaks they
      are at least one line, each non-empty, stripped and without a line
      break. */
  lemma PickClean(c: string, attempts: seq<Attempt>)
    ensures Pick(c, attempts).Some? ==>
              var lines := PyText.Split(Pick(c, attempts).value, '\n');
              |lines| > 0 &&
              forall i :: 0 <= i < |lines| ==>
                |lines[i]| > 0 && PyText.Strip(lines[i]) == lines[i] && PyText.Free(lines[i], '\n')
  {
    match FirstAccepted(c, attempts, 0)
    case None =>
    case Some(k) =>
      var notes := Candidate(c, attempts[k]).value;
      PickFirst(c, attempts, k);
      LinesShape(notes);
  }

  /** The length test decides alone: a stripped group longer than ten
      characters always keeps a line. */
  lemma LongCandidateAccepted(c: string, a: Attempt)
    requires Candidate(c, a).Some? && |Candidate(c, a).value| > 10
    ensures Accepted(c, a)
  {
    var text := Group(c, a.pattern, a.gap).value;
    StripShape(text);
    LinesOfStripped(Candidate(c, a).value);
  }
}
