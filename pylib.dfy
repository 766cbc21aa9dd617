/**
 * The pieces of the Python library that the placement engine leans on, stated on strings:
 * posixpath.join (two arguments), posixpath.splitext, str.find and the decimal formatting
 * of a non-negative int ('{}'.format(n)).
 */
module PyLib {

  // ---------------------------------------------------------------------------
  // posixpath.join(a, b)
  // ---------------------------------------------------------------------------

  /** `n` is an absolute path: join discards everything before it. */
  predicate IsAbsolute(n: string) {
    |n| > 0 && n[0] == '/'
  }

  /** What join puts in front of a relative second argument: `d`, plus a separator unless
      `d` is empty or already ends with one. */
  function JoinPrefix(d: string): (p: string)
    ensures |p| >= |d| && p[..|d|] == d
    ensures p == d || p == d + "/"
    ensures |p| > 0 ==> p[|p| - 1] == '/'
  {
    if d == [] || d[|d| - 1] == '/' then d else d + "/"
  }

  /** posixpath.join(d, n): an absolute `n` replaces `d`; otherwise `n` is appended after a
      single separator. */
  function Join(d: string, n: string): string {
    if IsAbsolute(n) then n else JoinPrefix(d) + n
  }

  /** What join promises of a relative name: the result starts with `d`, ends with `n`, and
      holds at most one added character between them, a separator, which it adds exactly when
      `d` is non-empty and does not already end with one. */
  lemma JoinParts(d: string, n: string)
    requires !IsAbsolute(n)
    ensures var p := Join(d, n);
            && |d| + |n| <= |p| <= |d| + |n| + 1
            && p[..|d|] == d
            && p[|p| - |n|..] == n
            && (|p| == |d| + |n| + 1 <==> d != [] && d[|d| - 1] != '/')
            && (|p| == |d| + |n| + 1 ==> p[|d|] == '/')
  {
    var p := Join(d, n);
    assert p == JoinPrefix(d) + n;
    assert p[|p| - |n|..] == n;
  }

  /** Joining a non-empty relative name below `d` gives a strictly longer path than `d`. */
  lemma JoinRelativeLonger(d: string, n: string)
    requires n != [] && !IsAbsolute(n)
    ensures |Join(d, n)| > |d|
    ensures Join(d, n) != d
  {
  }

  /** Two names of the same kind (both absolute or both relative) joined below the same
      directory give the same path only when they are equal. */
  lemma {:induction false} JoinInjective(d: string, a: string, b: string)
    requires IsAbsolute(a) == IsAbsolute(b)
    requires Join(d, a) == Join(d, b)
    ensures a == b
  {
    if !IsAbsolute(a) {
      var p := JoinPrefix(d);
      assert (p + a)[|p|..] == a;
      assert (p + b)[|p|..] == b;
    }
  }

  // ---------------------------------------------------------------------------
  // str.rfind of one character, and posixpath.splitext
  // ---------------------------------------------------------------------------

  /** s.rfind(c): the index of the last occurrence of `c` in `s`, or -1. */
  function RFind(s: string, c: char): (r: int)
    ensures -1 <= r < |s|
    ensures r >= 0 ==> s[r] == c
    ensures forall i :: r < i < |s| ==> s[i] != c
    decreases |s|
  {
    if |s| == 0 then -1
    else if s[|s| - 1] == c then |s| - 1
    else RFind(s[..|s| - 1], c)
  }

  /** Every character of `s` is a dot (vacuously true of the empty string). */
  predicate AllDots(s: string) {
    forall i :: 0 <= i < |s| ==> s[i] == '.'
  }

  /** `e` can be an extension: empty, or a dot followed by neither a dot nor a separator. */
  predicate IsExtension(e: string) {
    e == [] || (e[0] == '.' && forall i :: 0 < i < |e| ==> e[i] != '.' && e[i] != '/')
  }

  /**
   * posixpath.splitext(p): the extension starts at the last dot after the last separator,
   * unless every character of the last component before that dot is itself a dot (a dotfile
   * such as ".bashrc" or "..x" has no extension). The root and the extension always
   * concatenate back to `p`, and the extension has the shape IsExtension describes.
   */
  function SplitExt(p: string): (r: (string, string))
    ensures r.0 + r.1 == p
    ensures IsExtension(r.1)
  {
    var sepIndex := RFind(p, '/');
    var dotIndex := RFind(p, '.');
    if dotIndex > sepIndex && !AllDots(p[sepIndex + 1..dotIndex]) then
      ExtensionFromLastDot(p, sepIndex, dotIndex);
      (p[..dotIndex], p[dotIndex..])
    else
      (p, [])
  }

  /** Cutting `p` at its last dot, when that dot follows the last separator, leaves an
      extension behind. */
  lemma ExtensionFromLastDot(p: string, sepIndex: int, dotIndex: int)
    requires -1 <= sepIndex < dotIndex < |p| && p[dotIndex] == '.'
    requires forall i :: dotIndex < i < |p| ==> p[i] != '.'
    requires forall i :: sepIndex < i < |p| ==> p[i] != '/'
    ensures IsExtension(p[dotIndex..])
    ensures p[..dotIndex] + p[dotIndex..] == p
  {
    var e := p[dotIndex..];
    forall i | 0 < i < |e| ensures e[i] != '.' && e[i] != '/' {
      assert e[i] == p[dotIndex + i];
    }
  }

  /** RFind finds the occurrence of `c` that no later character repeats. */
  lemma RFindAt(s: string, c: char, k: int)
    requires 0 <= k < |s| && s[k] == c
    requires forall i :: k < i < |s| ==> s[i] != c
    ensures RFind(s, c) == k
  {
  }

  /** RFind reports -1 exactly for a character that does not occur. */
  lemma RFindAbsent(s: string, c: char)
    requires c !in s
    ensures RFind(s, c) == -1
  {
  }

  /** Names whose split shows Python's rules: the last dot wins, a leading dot does not
      start an extension, and a dot in a directory name is not an extension. */
  lemma SplitExtExamples()
    ensures SplitExt("archive.tar.gz") == ("archive.tar", ".gz")
    ensures SplitExt(".bashrc") == (".bashrc", "")
    ensures SplitExt("dir.d/photo") == ("dir.d/photo", "")
  {
    RFindAbsent("archive.tar.gz", '/');
    RFindAt("archive.tar.gz", '.', 11);
    assert "archive.tar.gz"[0..11][0] == 'a';
    assert "archive.tar.gz"[..11] == "archive.tar";
    assert "archive.tar.gz"[11..] == ".gz";
    RFindAbsent(".bashrc", '/');
    RFindAt(".bashrc", '.', 0);
    RFindAt("dir.d/photo", '/', 5);
    RFindAt("dir.d/photo", '.', 3);
  }

  /** The split of a name that is `root` followed by `ext`, where `root` has no dot and no
      separator but is not empty, and `ext` is empty or a dot followed by neither: exactly
      (`root`, `ext`). */
  lemma {:induction false} SplitExtOfPlainRoot(root: string, ext: string)
    requires root != [] && '.' !in root && '/' !in root
    requires IsExtension(ext)
    ensures SplitExt(root + ext) == (root, ext)
  {
    var p := root + ext;
    assert forall i :: 0 <= i < |p| ==> p[i] != '/' by {
      forall i | 0 <= i < |p| ensures p[i] != '/' {
        if i < |root| { assert p[i] == root[i]; } else { assert p[i] == ext[i - |root|]; }
      }
    }
    var sepIndex := RFind(p, '/');
    assert sepIndex == -1;
    var dotIndex := RFind(p, '.');
    if ext == [] {
      assert p == root;
      assert dotIndex == -1;
    } else {
      assert p[|root|] == '.';
      assert dotIndex == |root|;
      assert p[sepIndex + 1..dotIndex] == root;
      assert root[0] != '.';
      assert p[..dotIndex] == root;
      assert p[dotIndex..] == ext;
    }
  }

  // ---------------------------------------------------------------------------
  // str.find
  // ---------------------------------------------------------------------------

  /** `sub` occurs in `s` starting at index `i`. */
  predicate OccursAt(s: string, sub: string, i: int) {
    0 <= i && i + |sub| <= |s| && s[i..i + |sub|] == sub
  }

  /** An occurrence at the start of `n` is an occurrence in `p + n` right after `p`. */
  lemma OccursAfter(p: string, n: string, sub: string)
    requires OccursAt(n, sub, 0)
    ensures OccursAt(p + n, sub, |p|)
  {
    assert (p + n)[|p|..|p| + |sub|] == n[..|sub|];
  }

  /** s.find(sub, i): the lowest index at or after `i` where `sub` occurs, or -1. */
  function FindFrom(s: string, sub: string, i: nat): (r: int)
    ensures r == -1 || (i <= r && OccursAt(s, sub, r))
    ensures r == -1 ==> forall j :: i <= j ==> !OccursAt(s, sub, j)
    ensures r >= 0 ==> forall j :: i <= j < r ==> !OccursAt(s, sub, j)
    decreases |s| - i
  {
    if i + |sub| > |s| then -1
    else if s[i..i + |sub|] == sub then i
    else FindFrom(s, sub, i + 1)
  }

  /** s.find(sub): the lowest index where `sub` occurs in `s`, or -1 when it never does. */
  function Find(s: string, sub: string): (r: int)
    ensures r >= 0 <==> exists j :: OccursAt(s, sub, j)
    ensures r >= 0 ==> OccursAt(s, sub, r) && forall j :: 0 <= j < r ==> !OccursAt(s, sub, j)
  {
    FindFrom(s, sub, 0)
  }

  // ---------------------------------------------------------------------------
  // '{}'.format(n) for a non-negative int
  // ---------------------------------------------------------------------------

  predicate IsDigit(c: char) {
    '0' <= c <= '9'
  }

  function DigitChar(d: nat): (c: char)
    requires d < 10
    ensures IsDigit(c) && c as int - '0' as int == d
  {
    (d + '0' as int) as char
  }

  /** The decimal text of `n`, most significant digit first, without leading zeros. */
  function NatToString(n: nat): (s: string)
    ensures |s| >= 1
    ensures forall i :: 0 <= i < |s| ==> IsDigit(s[i])
    ensures |s| > 1 ==> s[0] != '0'
    decreases n
  {
    if n < 10 then [DigitChar(n)] else NatToString(n / 10) + [DigitChar(n % 10)]
  }

  /** The number a string of decimal digits denotes. */
  function ParseDecimal(s: string): nat
    requires forall i :: 0 <= i < |s| ==> IsDigit(s[i])
    decreases |s|
  {
    if s == [] then 0
    else
      var last := s[|s| - 1];
      assert IsDigit(last);
      ParseDecimal(s[..|s| - 1]) * 10 + (last as int - '0' as int)
  }

  /** Reading back the decimal text of `n` gives `n`. */
  lemma {:induction false} ParseNatToString(n: nat)
    ensures ParseDecimal(NatToString(n)) == n
    decreases n
  {
    var s := NatToString(n);
    if n >= 10 {
      ParseNatToString(n / 10);
      assert s[..|s| - 1] == NatToString(n / 10);
    }
  }

  /** Distinct numbers have distinct decimal texts. */
  lemma NatToStringInjective(i: nat, j: nat)
    requires NatToString(i) == NatToString(j)
    ensures i == j
  {
    ParseNatToString(i);
    ParseNatToString(j);
  }
}
