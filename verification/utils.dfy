/**
 * The path and extension string functions of processing_tools/utils.py:
 * a model of POSIX `os.path.splitext`, `get_extension` and
 * `filename_to_pdf_name`, over strings as sequences of characters.
 */
module Utils {

  /** Python's `str.isspace`: the characters `str.strip()` removes. */
  predicate IsSpace(c: char) {
    var n := c as int;
    || 9 <= n <= 13
    || 28 <= n <= 32
    || n == 0x85 || n == 0xA0 || n == 0x1680
    || 0x2000 <= n <= 0x200A
    || n == 0x2028 || n == 0x2029 || n == 0x202F || n == 0x205F || n == 0x3000
  }

  predicate IsAsciiUpper(c: char) {
    'A' <= c <= 'Z'
  }

  function LowerChar(c: char): (d: char)
    ensures !IsAsciiUpper(d)
    ensures d == '.' <==> c == '.'
    ensures d == '/' <==> c == '/'
  {
    if IsAsciiUpper(c) then (c as int + 32) as char else c
  }

  /** `str.lower()` on the ASCII letters; every other character is kept. */
  function Lower(s: string): (r: string)
    ensures |r| == |s|
    ensures forall i :: 0 <= i < |s| ==> r[i] == LowerChar(s[i])
  {
    seq(|s|, i requires 0 <= i < |s| => LowerChar(s[i]))
  }

  /** `Lower` is determined character by character. */
  lemma LowerIs(s: string, t: string)
    requires |s| == |t|
    requires forall i :: 0 <= i < |s| ==> LowerChar(s[i]) == t[i]
    ensures Lower(s) == t
  {
  }

  /** `str.lstrip()`: drop the leading white space, keep the rest. */
  function LStrip(s: string): (r: string)
    ensures |r| <= |s| && r == s[|s| - |r|..]
    ensures forall k :: 0 <= k < |s| - |r| ==> IsSpace(s[k])
    ensures |r| == 0 || !IsSpace(r[0])
  {
    if |s| > 0 && IsSpace(s[0]) then LStrip(s[1..]) else s
  }

  /** `str.rstrip()`: drop the trailing white space, keep the rest. */
  function RStrip(s: string): (r: string)
    ensures |r| <= |s| && r == s[..|r|]
    ensures forall k :: |r| <= k < |s| ==> IsSpace(s[k])
    ensures |r| == 0 || !IsSpace(r[|r| - 1])
  {
    if |s| > 0 && IsSpace(s[|s| - 1]) then RStrip(s[..|s| - 1]) else s
  }

  /** `str.strip()`. */
  function Strip(s: string): string {
    RStrip(LStrip(s))
  }

  /** `str.rfind(c)`: the index of the last occurrence of `c`, or -1. */
  function RFind(s: string, c: char): (i: int)
    ensures -1 <= i < |s|
    ensures 0 <= i ==> s[i] == c
    ensures forall k :: i < k < |s| ==> s[k] != c
  {
    LastBefore(s, c, |s|)
  }

  /** The index of the last `c` among the first `n` characters, or -1. */
  function LastBefore(s: string, c: char, n: nat): (i: int)
    requires n <= |s|
    ensures -1 <= i < n
    ensures 0 <= i ==> s[i] == c
    ensures forall k :: i < k < n ==> s[k] != c
  {
    if n == 0 then -1
    else if s[n - 1] == c then n - 1
    else LastBefore(s, c, n - 1)
  }

  /** The position of the last `c` is determined by the text alone. */
  lemma RFindIs(s: string, c: char, i: int)
    requires -1 <= i < |s|
    requires 0 <= i ==> s[i] == c
    requires forall k :: i < k < |s| ==> s[k] != c
    ensures RFind(s, c) == i
  {
  }

  /** `os.path.basename`: the text after the last '/'. */
  function Basename(p: string): (b: string)
    ensures '/' !in b
  {
    var i := RFind(p, '/');
    SuffixAfter(p, i);
    p[i + 1..]
  }

  /** Nothing after the last '/' is a '/'. */
  lemma SuffixAfter(p: string, i: int)
    requires -1 <= i < |p|
    requires forall k :: i < k < |p| ==> p[k] != '/'
    ensures '/' !in p[i + 1..]
  {
  }

  predicate AllDots(s: string) {
    forall i :: 0 <= i < |s| ==> s[i] == '.'
  }

  /**
   * `os.path.splitext` on POSIX: split at the last '.' that comes after the
   * last '/', unless everything between that '/' and the dot is dots (a
   * leading dot does not start an extension). Returns (root, ext).
   */
  function SplitExt(p: string): (r: (string, string))
    ensures r.0 + r.1 == p
    ensures |r.1| > 0 ==> r.1[0] == '.'
  {
    var sep := RFind(p, '/');
    var dot := RFind(p, '.');
    var cut := if dot > sep && !AllDots(p[sep + 1..dot]) then dot else |p|;
    CutAt(p, cut)
  }

  /** `p` cut in two at position `i`. */
  function CutAt(p: string, i: nat): (r: (string, string))
    requires i <= |p|
    ensures r.0 + r.1 == p
    ensures r.0 == p[..i] && r.1 == p[i..]
  {
    (p[..i], p[i..])
  }

  /**
   * The declarative reading of `splitext`: `ext` is a dot followed by text
   * without '.' or '/', and the root's final component is not only dots.
   */
  predicate IsExtSplit(p: string, root: string, ext: string) {
    && root + ext == p
    && |ext| > 0 && ext[0] == '.'
    && '.' !in ext[1..] && '/' !in ext[1..]
    && !AllDots(Basename(root))
  }

  /** `p` has an extension in the declarative sense. */
  predicate HasExtension(p: string) {
    exists i :: 0 <= i <= |p| && IsExtSplit(p, p[..i], p[i..])
  }

  /** A split found by `SplitExt` satisfies the declarative reading. */
  lemma SplitExtSound(p: string)
    requires |SplitExt(p).1| > 0
    ensures IsExtSplit(p, SplitExt(p).0, SplitExt(p).1)
  {
    var sep := RFind(p, '/');
    var dot := RFind(p, '.');
    assert dot > sep && !AllDots(p[sep + 1..dot]);
    assert SplitExt(p) == (p[..dot], p[dot..]);
    TailAfterLastDot(p, sep, dot);
    BasenameBeforeDot(p, sep, dot);
  }

  /** After the last '.', which follows the last '/', there is neither. */
  lemma TailAfterLastDot(p: string, sep: int, dot: int)
    requires sep == RFind(p, '/') && dot == RFind(p, '.') && sep < dot
    ensures '.' !in p[dot..][1..] && '/' !in p[dot..][1..]
  {
    var tail := p[dot..][1..];
    forall k | 0 <= k < |tail|
      ensures tail[k] != '.' && tail[k] != '/'
    {
      assert tail[k] == p[dot + 1 + k];
    }
  }

  /** The base name of the text before a dot past the last '/' is what lies between them. */
  lemma BasenameBeforeDot(p: string, sep: int, dot: int)
    requires sep == RFind(p, '/') && sep < dot < |p|
    ensures Basename(p[..dot]) == p[sep + 1..dot]
  {
    RFindIs(p[..dot], '/', sep);
  }

  /** The last '.' of `root + ext` is the first character of `ext`. */
  lemma LastDotAt(root: string, ext: string)
    requires |ext| > 0 && ext[0] == '.' && '.' !in ext[1..]
    ensures RFind(root + ext, '.') == |root|
  {
    var p := root + ext;
    forall k | |root| < k < |p|
      ensures p[k] != '.'
    {
      assert p[k] == ext[1..][k - |root| - 1];
    }
    RFindIs(p, '.', |root|);
  }

  /** Appending text without '/' keeps the last '/' where it was. */
  lemma LastSlashKept(root: string, ext: string)
    requires '/' !in ext
    ensures RFind(root + ext, '/') == RFind(root, '/')
  {
    var p := root + ext;
    var sep := RFind(root, '/');
    forall k | sep < k < |p|
      ensures p[k] != '/'
    {
      if k >= |root| {
        assert p[k] == ext[k - |root|];
      }
    }
    RFindIs(p, '/', sep);
  }

  /** Any split satisfying the declarative reading is the one `SplitExt` finds. */
  lemma SplitExtComplete(p: string, root: string, ext: string)
    requires IsExtSplit(p, root, ext)
    ensures SplitExt(p) == (root, ext)
  {
    LastDotAt(root, ext);
    assert '/' !in ext by {
      assert ext == [ext[0]] + ext[1..];
    }
    LastSlashKept(root, ext);
    var dot, sep := |root|, RFind(root, '/');
    assert p[..dot] == root;
    assert p[sep + 1..dot] == Basename(root);
    assert p[dot..] == ext;
  }

  /** `splitext` finds an extension exactly when the declarative reading has one. */
  lemma SplitExtFindsExtension(p: string)
    ensures |SplitExt(p).1| > 0 <==> HasExtension(p)
  {
    if |SplitExt(p).1| > 0 {
      SplitExtSound(p);
      var i := |SplitExt(p).0|;
      assert p[..i] == SplitExt(p).0 && p[i..] == SplitExt(p).1;
    }
    if HasExtension(p) {
      var i :| 0 <= i <= |p| && IsExtSplit(p, p[..i], p[i..]);
      SplitExtComplete(p, p[..i], p[i..]);
    }
  }

  /**
   * `get_extension`: the `splitext` extension, stripped, lower-cased, with
   * its leading dot dropped.
   */
  function GetExtension(path: string): (r: string)
    ensures '.' !in r && '/' !in r
    ensures forall i :: 0 <= i < |r| ==> !IsAsciiUpper(r[i])
  {
    ExtensionBody(path);
    CleanExtension(SplitExt(path).1)
  }

  /** `.strip().lower()[1:]` (slicing past the end of "" gives ""). */
  function CleanExtension(ext: string): (r: string)
    ensures forall i :: 0 <= i < |r| ==> !IsAsciiUpper(r[i])
  {
    var e := Lower(Strip(ext));
    if |e| == 0 then "" else e[1..]
  }

  /** Lower-casing commutes with dropping a leading dot. */
  lemma LowerAfterDot(s: string)
    ensures Lower("." + s)[1..] == Lower(s)
  {
    var d := "." + s;
    var t := Lower(d)[1..];
    forall k | 0 <= k < |s|
      ensures LowerChar(s[k]) == t[k]
    {
      assert d[k + 1] == s[k];
    }
    LowerIs(s, t);
  }

  /** Cleaning a dotted extension removes the dot and trailing white space and lower-cases the rest. */
  lemma CleanDottedExtension(ext: string)
    ensures CleanExtension("." + ext) == Lower(RStrip(ext))
  {
    var d := "." + ext;
    assert LStrip(d) == d;
    RStripDot(ext);
    CleanOfStripped(d, RStrip(ext));
  }

  /** A string that strips to a dot and `s` cleans to `s` lower-cased. */
  lemma CleanOfStripped(d: string, s: string)
    requires Strip(d) == "." + s
    ensures CleanExtension(d) == Lower(s)
  {
    var e := Lower("." + s);
    assert |e| == |s| + 1;
    LowerAfterDot(s);
  }

  /** The cleaned extension of any path holds neither '.' nor '/'. */
  lemma ExtensionBody(path: string)
    ensures var r := CleanExtension(SplitExt(path).1);
            '.' !in r && '/' !in r
  {
    var ext := SplitExt(path).1;
    if |ext| > 0 {
      SplitExtSound(path);
      CleanedDotted(ext);
    } else {
      assert LStrip(ext) == ext;
    }
  }

  /** A dot followed by text without '.' or '/' cleans to text without them. */
  lemma CleanedDotted(ext: string)
    requires |ext| > 0 && ext[0] == '.' && '.' !in ext[1..] && '/' !in ext[1..]
    ensures var r := CleanExtension(ext);
            '.' !in r && '/' !in r
  {
    var t := ext[1..];
    assert ext == "." + t;
    CleanDottedExtension(t);
    CleanedSuffix(t);
  }

  /** Trailing-space removal and lower-casing bring in no '.' or '/'. */
  lemma CleanedSuffix(t: string)
    requires '.' !in t && '/' !in t
    ensures var r := Lower(RStrip(t));
            '.' !in r && '/' !in r
  {
    var s := RStrip(t);
    forall k | 0 <= k < |s|
      ensures Lower(s)[k] != '.' && Lower(s)[k] != '/'
    {
      assert s[k] == t[k];
    }
  }

  /**
   * The extension of `stem + "." + ext` is `ext` with trailing white space
   * removed and lower-cased, whenever the stem's final component is not only
   * dots and `ext` holds no '.' or '/'.
   */
  lemma GetExtensionOfSuffix(stem: string, ext: string)
    requires !AllDots(Basename(stem))
    requires '.' !in ext && '/' !in ext
    ensures GetExtension(stem + "." + ext) == Lower(RStrip(ext))
  {
    var p := stem + "." + ext;
    assert ("." + ext)[1..] == ext;
    assert p == stem + ("." + ext);
    SplitExtComplete(p, stem, "." + ext);
    CleanDottedExtension(ext);
  }

  /** `rstrip` leaves a leading dot alone. */
  lemma {:induction false} RStripDot(ext: string)
    ensures RStrip("." + ext) == "." + RStrip(ext)
    decreases |ext|
  {
    if |ext| > 0 && IsSpace(ext[|ext| - 1]) {
      assert ("." + ext)[..|ext|] == "." + ext[..|ext| - 1];
      RStripDot(ext[..|ext| - 1]);
    }
  }

  /** A path without an extension in the declarative sense yields "". */
  lemma GetExtensionWithoutExtension(path: string)
    requires !HasExtension(path)
    ensures GetExtension(path) == ""
  {
    SplitExtFindsExtension(path);
  }

  /** A final path component without any '.' has no extension. */
  lemma NoDotNoExtension(path: string)
    requires '.' !in Basename(path)
    ensures GetExtension(path) == ""
  {
    assert |SplitExt(path).1| == 0;
    NoSplitNoExtension(path);
  }

  /** Without a `splitext` extension `get_extension` is "". */
  lemma NoSplitNoExtension(path: string)
    requires |SplitExt(path).1| == 0
    ensures GetExtension(path) == ""
  {
    assert Strip("") == "";
  }

  /** A name without '/' is its own base name. */
  lemma BasenameWithoutSlash(p: string)
    requires '/' !in p
    ensures Basename(p) == p
  {
    RFindIs(p, '/', -1);
  }

  /** First documented example of `get_extension`: a plain file name. */
  lemma GetExtensionOfPlainName()
    ensures GetExtension("this is my file.pdf") == "pdf"
  {
    var stem := "this is my file";
    PlainNameParts();
    GetExtensionOfSuffix(stem, "pdf");
  }

  lemma PlainNameParts()
    ensures "this is my file" + "." + "pdf" == "this is my file.pdf"
    ensures !AllDots(Basename("this is my file"))
    ensures Lower(RStrip("pdf")) == "pdf"
  {
    PlainNameBase();
    PdfStripped();
    PdfLower();
  }

  lemma PlainNameBase()
    ensures !AllDots(Basename("this is my file"))
  {
    BasenameWithoutSlash("this is my file");
    assert "this is my file"[0] == 't';
  }

  lemma PdfStripped()
    ensures RStrip("pdf") == "pdf"
  {
    assert !IsSpace('f');
  }

  lemma PdfLower()
    ensures Lower("pdf") == "pdf"
  {
    assert LowerChar('p') == 'p' && LowerChar('d') == 'd' && LowerChar('f') == 'f';
    LowerIs("pdf", "pdf");
  }

  /** Second documented example: no dot, no extension. */
  lemma GetExtensionOfDotlessName()
    ensures GetExtension("this is my file") == ""
  {
    RFindIs("this is my file", '.', -1);
  }

  /** Third documented example: directories are ignored and case is folded. */
  lemma GetExtensionOfFullPath()
    ensures GetExtension("/home/user/Desktop/this is my file.MBOX") == "mbox"
  {
    var stem := "/home/user/Desktop/this is my file";
    FullPathParts();
    GetExtensionOfSuffix(stem, "MBOX");
  }

  lemma FullPathParts()
    ensures "/home/user/Desktop/this is my file" + "." + "MBOX" == "/home/user/Desktop/this is my file.MBOX"
    ensures !AllDots(Basename("/home/user/Desktop/this is my file"))
    ensures RStrip("MBOX") == "MBOX"
    ensures Lower("MBOX") == "mbox"
  {
    FullPathBase();
    assert !IsSpace('X');
    MboxLower();
  }

  lemma FullPathBase()
    ensures !AllDots(Basename("/home/user/Desktop/this is my file"))
  {
    var stem := "/home/user/Desktop/this is my file";
    RFindIs(stem, '/', 18);
    assert Basename(stem)[0] == 't';
  }

  lemma MboxLower()
    ensures Lower("MBOX") == "mbox"
  {
    assert LowerChar('M') == 'm' && LowerChar('B') == 'b' && LowerChar('O') == 'o' && LowerChar('X') == 'x';
    LowerIs("MBOX", "mbox");
  }

  /** A leading dot names a hidden file, not an extension. */
  lemma GetExtensionOfHiddenFile()
    ensures GetExtension("/tmp/.bashrc") == ""
  {
    RFindIs("/tmp/.bashrc", '.', 5);
    RFindIs("/tmp/.bashrc", '/', 4);
    assert AllDots("/tmp/.bashrc"[5..5]);
  }

  function EndsWith(s: string, suffix: string): bool {
    |suffix| <= |s| && s[|s| - |suffix|..] == suffix
  }

  /** `filename_to_pdf_name`: the `splitext` root followed by ".pdf". */
  function FilenameToPdfName(filename: string): (r: string)
    ensures EndsWith(r, ".pdf")
    ensures filename == r[..|r| - 4] + SplitExt(filename).1
  {
    var root := SplitExt(filename).0;
    assert (root + ".pdf")[..|root|] == root;
    root + ".pdf"
  }

  /** Swapping a real extension for ".pdf" keeps the stem, as html.py relies on for ".html". */
  lemma PdfNameReplacesExtension(stem: string, ext: string)
    requires !AllDots(Basename(stem))
    requires '.' !in ext && '/' !in ext
    ensures FilenameToPdfName(stem + "." + ext) == stem + ".pdf"
  {
    var p := stem + "." + ext;
    assert ("." + ext)[1..] == ext;
    assert p == stem + ("." + ext);
    SplitExtComplete(p, stem, "." + ext);
  }

  /**
   * With a final dotted suffix, the PDF name either replaces that suffix or,
   * when the stem's final component is only dots, is appended after it.
   */
  lemma PdfNameOfFinalSuffix(root: string, ext: string)
    requires |ext| > 0 && ext[0] == '.' && '.' !in ext[1..] && '/' !in ext
    ensures FilenameToPdfName(root + ext) == root + ".pdf" || FilenameToPdfName(root + ext) == root + ext + ".pdf"
    ensures !AllDots(Basename(root)) ==> FilenameToPdfName(root + ext) == root + ".pdf"
    ensures AllDots(Basename(root)) ==> FilenameToPdfName(root + ext) == root + ext + ".pdf"
  {
    if !AllDots(Basename(root)) {
      assert '/' !in ext[1..] by {
        assert forall k :: 0 <= k < |ext| - 1 ==> ext[1..][k] == ext[k + 1];
      }
      SplitExtComplete(root + ext, root, ext);
    } else {
      NoSplitAfterDots(root, ext);
    }
  }

  /** When the stem's final component is only dots, `splitext` does not cut before the suffix. */
  lemma NoSplitAfterDots(root: string, ext: string)
    requires |ext| > 0 && ext[0] == '.' && '.' !in ext[1..] && '/' !in ext
    requires AllDots(Basename(root))
    ensures SplitExt(root + ext) == (root + ext, "")
  {
    var p := root + ext;
    LastDotAt(root, ext);
    LastSlashKept(root, ext);
    var sep := RFind(root, '/');
    assert Basename(root) == root[sep + 1..];
    assert p[sep + 1..|root|] == root[sep + 1..];
    assert AllDots(p[sep + 1..|root|]);
    assert SplitExt(p) == CutAt(p, |p|);
    assert p[..|p|] == p && |p[|p|..]| == 0;
  }

  /** Without an extension ".pdf" is appended to the whole name. */
  lemma PdfNameAppends(filename: string)
    requires !HasExtension(filename)
    ensures FilenameToPdfName(filename) == filename + ".pdf"
  {
    SplitExtFindsExtension(filename);
  }

  /** The result already ends in ".pdf", so renaming again changes nothing, provided its stem is a proper file name. */
  lemma PdfNameIdempotent(filename: string)
    requires !AllDots(Basename(SplitExt(filename).0))
    ensures FilenameToPdfName(FilenameToPdfName(filename)) == FilenameToPdfName(filename)
  {
    var root := SplitExt(filename).0;
    assert root + "." + "pdf" == root + ".pdf";
    PdfNameReplacesExtension(root, "pdf");
  }
}
