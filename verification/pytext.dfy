/** The few pieces of Python's string behaviour the program relies on:
    `str(n)` and `int(s)` for integers, `lower()`, `strip()`, `lstrip(c)`,
    `split('\n')` / `'\n'.join`, `startswith`, negative slices and the
    posix forms of `os.path.basename` and `os.path.splitext`.
    Only ASCII letters, digits and whitespace are given their Python meaning. */
module PyText {
  import opened Maybe

  // ---------------------------------------------------------------------
  // Characters
  // ---------------------------------------------------------------------

  predicate IsDigit(c: char) { '0' <= c <= '9' }

  /** The ASCII characters `str.isspace` accepts. */
  predicate IsSpace(c: char)
  {
    c == ' ' || c == '\t' || c == '\n' || c == '\r' || c == '\U{B}' || c == '\U{C}'
    || ('\U{1C}' <= c <= '\U{1F}')
  }

  function DigitValue(c: char): nat
    requires IsDigit(c)
  {
    (c as int) - ('0' as int)
  }

  function DigitChar(d: nat): (c: char)
    requires d < 10
    ensures IsDigit(c) && DigitValue(c) == d
  {
    (('0' as int) + d) as char
  }

  predicate AllDigits(s: string)
  {
    forall i :: 0 <= i < |s| ==> IsDigit(s[i])
  }

  /** `str.lower()` on ASCII letters; every other character is kept. */
  function LowerChar(c: char): char
  {
    if 'A' <= c <= 'Z' then ((c as int) + 32) as char else c
  }

  function Lower(s: string): (r: string)
    ensures |r| == |s|
  {
    if s == [] then [] else [LowerChar(s[0])] + Lower(s[1..])
  }

  /** `lower()` works character by character. */
  lemma {:induction false} LowerAt(s: string)
    ensures forall i :: 0 <= i < |s| ==> Lower(s)[i] == LowerChar(s[i])
  {
    if s != [] {
      LowerAt(s[1..]);
      assert forall i :: 1 <= i < |s| ==> Lower(s)[i] == Lower(s[1..])[i - 1];
    }
  }

  // ---------------------------------------------------------------------
  // str(n) and int(s)
  // ---------------------------------------------------------------------

  /** Decimal digits of a natural number, most significant first. */
  function NatToStr(n: nat): (s: string)
    ensures |s| > 0 && AllDigits(s)
    decreases n
  {
    if n < 10 then [DigitChar(n)] else NatToStr(n / 10) + [DigitChar(n % 10)]
  }

  lemma NatToStrLength(n: nat)
    ensures n < 10 ==> |NatToStr(n)| == 1
    ensures 10 <= n < 100 ==> |NatToStr(n)| == 2
  {
    if 10 <= n < 100 {
      assert |NatToStr(n / 10)| == 1;
    }
  }

  /** Python's `str(n)` for an integer. */
  function IntToStr(n: int): (s: string)
    ensures |s| > 0
  {
    if n < 0 then "-" + NatToStr(-n) else NatToStr(n)
  }

  /** The number the decimal digits `d` denote when `v` has already been
      read in front of them. */
  function Accumulate(d: string, v: nat): nat
    requires AllDigits(d)
  {
    if d == [] then v else Accumulate(d[1..], v * 10 + DigitValue(d[0]))
  }

  lemma {:induction false} AccumulateSnoc(x: string, c: char, v: nat)
    requires AllDigits(x) && IsDigit(c)
    ensures AllDigits(x + [c])
    ensures Accumulate(x + [c], v) == Accumulate(x, v) * 10 + DigitValue(c)
    decreases |x|
  {
    if x != [] {
      assert (x + [c])[1..] == x[1..] + [c];
      AccumulateSnoc(x[1..], c, v * 10 + DigitValue(x[0]));
    } else {
      assert [c][1..] == [];
    }
  }

  lemma {:induction false} AccumulateNatToStr(n: nat)
    ensures Accumulate(NatToStr(n), 0) == n
    decreases n
  {
    if n >= 10 {
      AccumulateNatToStr(n / 10);
      AccumulateSnoc(NatToStr(n / 10), DigitChar(n % 10), 0);
    }
  }

  /** The digit scanner behind `int()`: decimal digits, with single
      underscores allowed between two digits. `value` is what has been read
      so far and `afterDigit` whether the last character was a digit. */
  function ScanDigits(s: string, value: nat, afterDigit: bool): Option<nat>
  {
    if s == [] then (if afterDigit then Some(value) else None)
    else if IsDigit(s[0]) then ScanDigits(s[1..], value * 10 + DigitValue(s[0]), true)
    else if s[0] == '_' && afterDigit then ScanDigits(s[1..], value, false)
    else None
  }

  lemma {:induction false} ScanAllDigits(d: string, v: nat, afterDigit: bool)
    requires AllDigits(d) && (|d| > 0 || afterDigit)
    ensures ScanDigits(d, v, afterDigit) == Some(Accumulate(d, v))
    decreases |d|
  {
    if d != [] {
      ScanAllDigits(d[1..], v * 10 + DigitValue(d[0]), true);
    }
  }

  /** The unsigned part of `int(s)` once the sign is removed. */
  function ParseUnsigned(s: string): Option<nat>
  {
    ScanDigits(s, 0, false)
  }

  /** Python's `int(s)` on a string: surrounding whitespace, an optional sign,
      then digits. `None` stands for the `ValueError` it raises otherwise. */
  function ParseInt(s: string): Option<int>
  {
    var t := Strip(s);
    if |t| > 0 && t[0] == '-' then
      match ParseUnsigned(t[1..])
      case Some(v) => Some(0 - v)
      case None => None
    else if |t| > 0 && t[0] == '+' then
      match ParseUnsigned(t[1..])
      case Some(v) => Some(v as int)
      case None => None
    else
      match ParseUnsigned(t)
      case Some(v) => Some(v as int)
      case None => None
  }

  // ---------------------------------------------------------------------
  // strip
  // ---------------------------------------------------------------------

  function LStrip(s: string): (r: string)
    ensures |r| <= |s|
    ensures |r| > 0 ==> !IsSpace(r[0])
  {
    if |s| > 0 && IsSpace(s[0]) then LStrip(s[1..]) else s
  }

  function RStrip(s: string): (r: string)
    ensures |r| <= |s|
    ensures |r| > 0 ==> !IsSpace(r[|r| - 1])
  {
    if |s| > 0 && IsSpace(s[|s| - 1]) then RStrip(s[..|s| - 1]) else s
  }

  /** `str.strip()` with no argument. */
  function Strip(s: string): (r: string)
    ensures |r| <= |s|
  {
    LStrip(RStrip(s))
  }

  predicate NoSpace(s: string)
  {
    forall i :: 0 <= i < |s| ==> !IsSpace(s[i])
  }

  lemma StripOfUnpadded(s: string)
    requires |s| == 0 || (!IsSpace(s[0]) && !IsSpace(s[|s| - 1]))
    ensures Strip(s) == s
  {
  }

  lemma NatToStrUnpadded(n: nat)
    ensures Strip(NatToStr(n)) == NatToStr(n)
    ensures ParseUnsigned(NatToStr(n)) == Some(n)
  {
    var d := NatToStr(n);
    StripOfUnpadded(d);
    ScanAllDigits(d, 0, false);
    AccumulateNatToStr(n);
  }

  lemma {:induction false} IntToStrRoundTrip(n: int)
    ensures ParseInt(IntToStr(n)) == Some(n)
  {
    if n < 0 {
      var d := NatToStr(-n);
      var s := "-" + d;
      NatToStrUnpadded(-n);
      assert s[|s| - 1] == d[|d| - 1];
      StripOfUnpadded(s);
      assert s[1..] == d;
    } else {
      NatToStrUnpadded(n);
    }
  }

  // ---------------------------------------------------------------------
  // prefixes, suffixes, single-character strips
  // ---------------------------------------------------------------------

  predicate StartsWith(s: string, p: string)
  {
    |p| <= |s| && s[..|p|] == p
  }

  /** `s[-k:]`: the last `k` characters, or all of `s` when it is shorter. */
  function LastChars(s: string, k: nat): (r: string)
    ensures |r| == if |s| < k then |s| else k
    ensures r == s[|s| - |r|..]
  {
    if |s| < k then s else s[|s| - k..]
  }

  /** `s.lstrip(c)` for one character. */
  function LStripChar(s: string, c: char): (r: string)
    ensures |r| <= |s| && r == s[|s| - |r|..]
    ensures |r| > 0 ==> r[0] != c
    ensures forall i :: 0 <= i < |s| - |r| ==> s[i] == c
  {
    if |s| > 0 && s[0] == c then LStripChar(s[1..], c) else s
  }

  // ---------------------------------------------------------------------
  // split / join on one separator
  // ---------------------------------------------------------------------

  predicate Free(s: string, c: char)
  {
    forall i :: 0 <= i < |s| ==> s[i] != c
  }

  /** Index of the first `c` in `s`, or `|s|` when there is none. */
  function FindChar(s: string, c: char): (k: nat)
    ensures k <= |s|
    ensures k < |s| ==> s[k] == c
  {
    if s == [] then 0
    else if s[0] == c then 0
    else 1 + FindChar(s[1..], c)
  }

  /** Nothing before the first `c` is a `c`. */
  lemma {:induction false} FindCharFirst(s: string, c: char)
    ensures Free(s[..FindChar(s, c)], c)
    decreases |s|
  {
    if s != [] && s[0] != c {
      FindCharFirst(s[1..], c);
      var k := FindChar(s, c);
      assert s[..k] == [s[0]] + s[1..][..k - 1];
    }
  }

  /** `s.split(c)`: always at least one piece. */
  function Split(s: string, c: char): (pieces: seq<string>)
    ensures |pieces| > 0
    decreases |s|
  {
    var k := FindChar(s, c);
    if k == |s| then [s] else [s[..k]] + Split(s[k + 1..], c)
  }

  /** No piece of `s.split(c)` holds `c`. */
  lemma {:induction false} SplitPiecesFree(s: string, c: char)
    ensures forall i :: 0 <= i < |Split(s, c)| ==> Free(Split(s, c)[i], c)
    decreases |s|
  {
    var k := FindChar(s, c);
    FindCharFirst(s, c);
    if k < |s| {
      SplitPiecesFree(s[k + 1..], c);
      var rest := Split(s[k + 1..], c);
      assert Split(s, c) == [s[..k]] + rest;
      assert forall i :: 1 <= i < |Split(s, c)| ==> Split(s, c)[i] == rest[i - 1];
    }
  }

  /** `c.join(pieces)`. */
  function Join(pieces: seq<string>, c: char): string
  {
    if pieces == [] then ""
    else if |pieces| == 1 then pieces[0]
    else pieces[0] + [c] + Join(pieces[1..], c)
  }

  lemma {:induction false} SplitJoin(pieces: seq<string>, c: char)
    requires |pieces| > 0
    requires forall i :: 0 <= i < |pieces| ==> Free(pieces[i], c)
    ensures Split(Join(pieces, c), c) == pieces
    decreases |pieces|
  {
    var s := Join(pieces, c);
    if |pieces| == 1 {
      assert FindChar(s, c) == |s|;
    } else {
      var rest := Join(pieces[1..], c);
      assert s == pieces[0] + [c] + rest;
      var k := |pieces[0]|;
      assert s[k] == c;
      assert s[..k] == pieces[0];
      FirstSeparator(s, k, c);
      assert s[k + 1..] == rest;
      SplitJoin(pieces[1..], c);
    }
  }

  lemma JoinThree(a: string, b: string, d: string, c: char)
    ensures Join([a, b, d], c) == a + [c] + b + [c] + d
  {
    var pieces := [a, b, d];
    assert pieces[1..] == [b, d];
    assert [b, d][1..] == [d];
    assert Join([d], c) == d;
    assert Join([b, d], c) == b + [c] + d;
    assert Join(pieces, c) == a + [c] + (b + [c] + d);
  }

  lemma SplitJoinThree(a: string, b: string, d: string, c: char)
    requires Free(a, c) && Free(b, c) && Free(d, c)
    ensures Split(Join([a, b, d], c), c) == [a, b, d]
  {
    SplitJoin([a, b, d], c);
  }

  lemma {:induction false} FirstSeparator(s: string, k: nat, c: char)
    requires k < |s| && s[k] == c && Free(s[..k], c)
    ensures FindChar(s, c) == k
    decreases k
  {
    if k > 0 {
      assert s[0] != c by { assert s[..k][0] == s[0]; }
      assert s[1..][..k - 1] == s[..k][1..];
      FirstSeparator(s[1..], k - 1, c);
    }
  }

  // ---------------------------------------------------------------------
  // posix paths
  // ---------------------------------------------------------------------

  /** `os.path.basename`: everything after the last '/'. */
  function Basename(p: string): (b: string)
    ensures |b| <= |p|
  {
    if p == [] then []
    else if p[|p| - 1] == '/' then []
    else Basename(p[..|p| - 1]) + [p[|p| - 1]]
  }

  /** The base name is the suffix after the last separator: it holds no
      '/', and a '/' precedes it unless it is the whole path. */
  lemma {:induction false} BasenameShape(p: string)
    ensures Basename(p) == p[|p| - |Basename(p)|..]
    ensures Free(Basename(p), '/')
    ensures |Basename(p)| < |p| ==> p[|p| - |Basename(p)| - 1] == '/'
  {
    if p != [] && p[|p| - 1] != '/' {
      var init := p[..|p| - 1];
      BasenameShape(init);
      var b := Basename(p);
      assert b == Basename(init) + [p[|p| - 1]];
      assert forall i :: 0 <= i < |b| - 1 ==> b[i] == Basename(init)[i];
      assert p == init + [p[|p| - 1]];
    }
  }

  /** Index of the last `c` in `s`, or -1. */
  function RFind(s: string, c: char): (k: int)
    ensures -1 <= k < |s|
    ensures k >= 0 ==> s[k] == c
    ensures forall i :: k < i < |s| ==> s[i] != c
  {
    if s == [] then -1
    else if s[|s| - 1] == c then |s| - 1
    else RFind(s[..|s| - 1], c)
  }

  /** The extension `os.path.splitext` reports for a file name without
      directories: from the last '.', unless only dots precede it. */
  function NameExt(b: string): (e: string)
    ensures |e| <= |b| && e == b[|b| - |e|..]
    ensures |e| > 0 ==> e[0] == '.'
  {
    var d := RFind(b, '.');
    if d > 0 && exists i :: 0 <= i < d && b[i] != '.' then b[d..] else ""
  }

  /** `os.path.splitext(p)[1]` with '/' as the separator. */
  function SplitExt(p: string): string
  {
    NameExt(Basename(p))
  }

  /** The base name of a path ending in a separator and a name is the name. */
  lemma {:induction false} BasenameAfter(dir: string, name: string)
    requires dir != [] && dir[|dir| - 1] == '/' && Free(name, '/')
    ensures Basename(dir + name) == name
  {
    if name != [] {
      var init := name[..|name| - 1];
      assert (dir + name)[..|dir + name| - 1] == dir + init;
      BasenameAfter(dir, init);
      assert name == init + [name[|name| - 1]];
    } else {
      assert dir + name == dir;
    }
  }

  /** The last `c` is the one followed only by characters other than `c`. */
  lemma {:induction false} RFindAfter(a: string, c: char, b: string)
    requires Free(b, c)
    ensures RFind(a + [c] + b, c) == |a|
  {
    if b != [] {
      var init := b[..|b| - 1];
      assert (a + [c] + b)[..|a + [c] + b| - 1] == a + [c] + init;
      RFindAfter(a, c, init);
    }
  }

  /** The extension of `stem.ext`, where the stem is not all dots and the
      extension has no dot, is `.ext`. */
  lemma NameExtOf(stem: string, ext: string)
    requires Free(ext, '.')
    requires exists i :: 0 <= i < |stem| && stem[i] != '.'
    ensures NameExt(stem + "." + ext) == "." + ext
  {
    var name := stem + "." + ext;
    RFindAfter(stem, '.', ext);
    var i :| 0 <= i < |stem| && stem[i] != '.';
    assert name[i] != '.';
    assert name[|stem|..] == "." + ext;
  }

  /** `splitext` of `dir/stem.ext` under the same conditions. */
  lemma SplitExtOf(dir: string, stem: string, ext: string)
    requires dir != [] && dir[|dir| - 1] == '/'
    requires Free(stem, '/') && Free(ext, '/') && Free(ext, '.')
    requires exists i :: 0 <= i < |stem| && stem[i] != '.'
    ensures SplitExt(dir + (stem + "." + ext)) == "." + ext
  {
    var name := stem + "." + ext;
    assert Free(name, '/');
    BasenameAfter(dir, name);
    NameExtOf(stem, ext);
  }

  /** A name whose only dot comes first has no extension. */
  lemma SplitExtHidden(dir: string, ext: string)
    requires dir != [] && dir[|dir| - 1] == '/'
    requires Free(ext, '/') && Free(ext, '.')
    ensures SplitExt(dir + ("." + ext)) == ""
  {
    BasenameAfter(dir, "." + ext);
    RFindAfter("", '.', ext);
    assert "" + "." + ext == "." + ext;
  }

  /** A name without a dot has no extension. */
  lemma SplitExtNone(dir: string, name: string)
    requires dir != [] && dir[|dir| - 1] == '/'
    requires Free(name, '/') && Free(name, '.')
    ensures SplitExt(dir + name) == ""
  {
    BasenameAfter(dir, name);
  }
}
