/**
  The file-name handling around uploads: the web validator `allowed_file`, the
  desktop extension check built on `os.path.splitext`, the stored name
  `<uuid hex>_<original name>`, the name a processed result gets, and the
  names read back from those (the web preview name and the desktop's default
  save name). Strings are sequences of characters; lower-casing is ASCII.
*/
module FileNames {

  /** The web form's allowed extensions. */
  const WebExtensions: set<string> := {"png", "jpg"}
  /** The desktop upload's allowed extensions. */
  const DesktopExtensions: set<string> := {"png", "jpg", "jpeg"}
  const HexDigits: set<char> := {'0', '1', '2', '3', '4', '5', '6', '7', '8', '9', 'a', 'b', 'c', 'd', 'e', 'f'}

  /** `uuid.uuid4().hex`: 32 lower-case hexadecimal digits. */
  predicate IsUuidHex(h: string) {
    |h| == 32 && forall i :: 0 <= i < |h| ==> h[i] in HexDigits
  }

  function LowerChar(c: char): (d: char)
    ensures 'A' <= c <= 'Z' ==> 'a' <= d <= 'z' && d as int - c as int == 32
    ensures !('A' <= c <= 'Z') ==> d == c
  {
    if 'A' <= c <= 'Z' then (c as int + 32) as char else c
  }

  /** `str.lower()` on ASCII letters. */
  function Lower(s: string): (r: string)
    ensures |r| == |s|
  {
    if s == [] then [] else [LowerChar(s[0])] + Lower(s[1..])
  }

  /** Lower-casing works character by character. */
  lemma {:induction false} LowerAt(s: string, i: int)
    requires 0 <= i < |s|
    ensures Lower(s)[i] == LowerChar(s[i])
    decreases |s|
  {
    if i > 0 {
      LowerAt(s[1..], i - 1);
    }
  }

  lemma LowerTail(s: string)
    requires 1 <= |s|
    ensures Lower(s)[1..] == Lower(s[1..])
  {
  }

  /** `str.find`: the first index of `c`, or -1. */
  function Find(s: string, c: char): (i: int)
    ensures -1 <= i < |s|
    ensures 0 <= i ==> s[i] == c
    ensures forall k :: 0 <= k < |s| && (i == -1 || k < i) ==> s[k] != c
  {
    if s == [] then -1
    else if s[0] == c then 0
    else
      var j := Find(s[1..], c);
      if j < 0 then -1 else j + 1
  }

  /** `str.rfind`: the last index of `c`, or -1. */
  function RFind(s: string, c: char): (i: int)
    ensures -1 <= i < |s|
    ensures 0 <= i ==> s[i] == c
    ensures forall k :: i < k < |s| ==> s[k] != c
  {
    if s == [] then -1
    else if s[|s| - 1] == c then |s| - 1
    else RFind(s[..|s| - 1], c)
  }

  /** A character that does not occur is not found. */
  lemma RFindAbsent(s: string, c: char)
    requires forall k :: 0 <= k < |s| ==> s[k] != c
    ensures RFind(s, c) == -1
  {
  }

  /** An occurrence of `c` with none after it is the one `RFind` reports. */
  lemma RFindIsLast(s: string, c: char, i: int)
    requires 0 <= i < |s| && s[i] == c
    requires forall k :: i < k < |s| ==> s[k] != c
    ensures RFind(s, c) == i
  {
  }

  /** The first occurrence of `c`, found after a prefix free of it. */
  lemma FindAfter(a: string, c: char, b: string)
    requires forall k :: 0 <= k < |a| ==> a[k] != c
    ensures Find(a + [c] + b, c) == |a|
  {
    var s := a + [c] + b;
    assert s[|a|] == c;
    assert forall k :: 0 <= k < |a| ==> s[k] == a[k];
  }

  /**
    `allowed_file`: the name contains a '.' and the text after the last '.',
    lower-cased, is an allowed web extension.
  */
  function AllowedFile(filename: string): (r: bool)
    ensures r ==> 4 <= |filename| && filename[|filename| - 4] == '.' && Lower(filename[|filename| - 3..]) in WebExtensions
  {
    var i := RFind(filename, '.');
    '.' in filename && Lower(filename[i + 1..]) in WebExtensions
  }

  /** Conversely, a name ending in '.' and png or jpg, in any case, is allowed. */
  lemma {:induction false} EndingAllowed(filename: string)
    requires 4 <= |filename| && filename[|filename| - 4] == '.'
    requires Lower(filename[|filename| - 3..]) in WebExtensions
    ensures AllowedFile(filename)
  {
    var n := |filename|;
    var tail := filename[n - 3..];
    forall k | 0 <= k < 3
      ensures tail[k] != '.'
    {
      LowerAt(tail, k);
    }
    RFindIsLast(filename, '.', n - 4);
  }

  /** Whether `i` is the position of the last '.' in `s`. */
  predicate LastDotAt(s: string, i: int) {
    0 <= i < |s| && s[i] == '.' && forall k :: i < k < |s| ==> s[k] != '.'
  }

  lemma AllowedFileAtLastDot(filename: string, i: int)
    requires LastDotAt(filename, i)
    ensures AllowedFile(filename) == (Lower(filename[i + 1..]) in WebExtensions)
  {
    RFindIsLast(filename, '.', i);
  }

  /** A name is allowed exactly when it splits at its last '.' into a stem and an extension that lower-cases to an allowed one. */
  lemma {:induction false} AllowedFileIff(filename: string)
    ensures AllowedFile(filename) <==>
              exists i :: LastDotAt(filename, i) && Lower(filename[i + 1..]) in WebExtensions
  {
    if AllowedFile(filename) {
      var i := RFind(filename, '.');
      assert LastDotAt(filename, i);
      AllowedFileAtLastDot(filename, i);
    }
    if exists i :: LastDotAt(filename, i) && Lower(filename[i + 1..]) in WebExtensions {
      var i :| LastDotAt(filename, i) && Lower(filename[i + 1..]) in WebExtensions;
      AllowedFileAtLastDot(filename, i);
    }
  }

  /** Only the last extension counts and case does not matter; "jpeg" and an empty extension are refused. */
  lemma AllowedFileExamples()
    ensures AllowedFile("a.b.JPG")
    ensures !AllowedFile("x.jpeg")
    ensures !AllowedFile("x.")
    ensures !AllowedFile("png")
  {
    RFindIsLast("a.b.JPG", '.', 3);
    assert "a.b.JPG"[4..] == "JPG";
    assert Lower("JPG") == "jpg";
    RFindIsLast("x.jpeg", '.', 1);
    assert "x.jpeg"[2..] == "jpeg";
    assert Lower("jpeg") == "jpeg";
    RFindIsLast("x.", '.', 1);
    assert "x."[2..] == "";
    assert "png"[0] != '.' && "png"[1] != '.' && "png"[2] != '.';
  }

  /** Whether every character of `s[lo..hi]` is a '.'. */
  predicate AllDots(s: string, lo: int, hi: int)
    requires 0 <= lo <= hi <= |s|
  {
    forall k :: lo <= k < hi ==> s[k] == '.'
  }

  /**
    Whether `os.path.splitext` finds an extension: the last '.' lies after the
    last '/', and the file name has a character other than '.' before it.
  */
  predicate HasExtension(p: string) {
    var d, s := RFind(p, '.'), RFind(p, '/');
    s < d && !AllDots(p, s + 1, d)
  }

  /**
    `os.path.splitext` on POSIX paths: root and extension make up the path; an
    extension is a '.' followed by neither '.' nor '/'.
  */
  function SplitExt(p: string): (r: (string, string))
    ensures r.0 + r.1 == p
    ensures r.1 != [] ==> r.1[0] == '.' && forall k :: 1 <= k < |r.1| ==> r.1[k] != '.' && r.1[k] != '/'
    ensures r.1 != [] <==> HasExtension(p)
  {
    if HasExtension(p) then
      var d := RFind(p, '.');
      assert p[..d] + p[d..] == p;
      (p[..d], p[d..])
    else
      (p, [])
  }

  /** `os.path.basename`: the text after the last '/'. */
  function Basename(p: string): (b: string)
    ensures |b| <= |p| && b == p[|p| - |b|..]
    ensures forall k :: 0 <= k < |b| ==> b[k] != '/'
    ensures |b| < |p| ==> p[|p| - |b| - 1] == '/'
  {
    p[RFind(p, '/') + 1..]
  }

  /** The desktop check: splitext's extension, lower-cased, without its '.', is an allowed desktop extension. */
  function DesktopAllowed(path: string): (r: bool)
    ensures r ==> HasExtension(path) && 4 <= |SplitExt(path).1| <= 5
  {
    var ext := Lower(SplitExt(path).1);
    ext != [] && ext[1..] in DesktopExtensions
  }

  /**
    The desktop check accepts exactly the paths with an extension in the
    splitext sense whose text after the last '.' is allowed, in any case.
  */
  lemma {:induction false} DesktopAllowedIff(path: string)
    ensures DesktopAllowed(path) <==> HasExtension(path) && Lower(path[RFind(path, '.') + 1..]) in DesktopExtensions
  {
    if HasExtension(path) {
      DesktopAllowedWithExtension(path);
    } else {
      assert SplitExt(path).1 == [];
    }
  }

  lemma DesktopAllowedWithExtension(path: string)
    requires HasExtension(path)
    ensures DesktopAllowed(path) == (Lower(path[RFind(path, '.') + 1..]) in DesktopExtensions)
  {
    var d := RFind(path, '.');
    var ext := SplitExt(path).1;
    assert ext == path[d..];
    assert ext[1..] == path[d + 1..];
    LowerTail(ext);
  }

  /** The desktop check takes "jpeg", which the web check refuses. */
  lemma DesktopTakesJpeg()
    ensures DesktopAllowed("x.jpeg") && !AllowedFile("x.jpeg")
  {
    var p := "x.jpeg";
    RFindIsLast(p, '.', 1);
    RFindAbsent(p, '/');
    assert !AllDots(p, 0, 1) by { assert p[0] == 'x'; }
    assert SplitExt(p).1 == p[1..] == ".jpeg";
    LowerTail(".jpeg");
    assert ".jpeg"[1..] == "jpeg";
    assert Lower("jpeg") == "jpeg";
    assert !AllowedFile(p) by { AllowedFileExamples(); }
  }

  /** A hidden file ".png" has no extension for the desktop check, but passes the web check. */
  lemma HiddenPngDiffers()
    ensures !DesktopAllowed(".png") && AllowedFile(".png")
  {
    RFindIsLast(".png", '.', 0);
    assert ".png"[1..] == "png";
    assert Lower("png") == "png";
    assert !HasExtension(".png");
  }

  /** The stored upload name: the uuid hex, '_', the original name. */
  function StoredName(hex: string, name: string): (r: string)
    ensures |r| == |hex| + 1 + |name|
    ensures r[..|hex|] == hex && r[|hex|] == '_' && r[|hex| + 1..] == name
  {
    hex + "_" + name
  }

  /** The name a processed result gets. */
  function ProcessedName(stored: string): (r: string)
    ensures |r| == 10 + |stored| && r[..10] == "processed_" && r[10..] == stored
  {
    "processed_" + stored
  }

  /** The web preview name, `stored[33:]` (empty when the name is shorter). */
  function PreviewName(stored: string): (r: string)
    ensures 33 <= |stored| ==> stored == stored[..33] + r
    ensures |stored| < 33 ==> r == []
  {
    if |stored| < 33 then [] else stored[33..]
  }

  /** Dropping the 33 characters of a uuid hex and its '_' recovers the uploaded name. */
  lemma PreviewRecoversName(hex: string, name: string)
    requires IsUuidHex(hex)
    ensures PreviewName(StoredName(hex, name)) == name
  {
    assert StoredName(hex, name)[33..] == name;
  }

  /**
    `str.split(sep, maxsplit)` with a one-character separator: cut at the first
    `maxsplit` occurrences of `sep`, from the left.
  */
  function Split(s: string, sep: char, maxsplit: nat): (parts: seq<string>)
    ensures 1 <= |parts| <= maxsplit + 1
    ensures forall i :: 0 <= i < |parts| - 1 ==> sep !in parts[i]
    ensures |parts| <= maxsplit ==> sep !in parts[|parts| - 1]
    decreases maxsplit
  {
    if maxsplit == 0 then [s]
    else
      var i := Find(s, sep);
      if i < 0 then [s]
      else [s[..i]] + Split(s[i + 1..], sep, maxsplit - 1)
  }

  /** `sep.join(parts)`. */
  function Join(parts: seq<string>, sep: char): string
    decreases |parts|
  {
    if |parts| == 0 then []
    else if |parts| == 1 then parts[0]
    else parts[0] + [sep] + Join(parts[1..], sep)
  }

  lemma JoinCons(head: string, rest: seq<string>, sep: char)
    requires 1 <= |rest|
    ensures Join([head] + rest, sep) == head + [sep] + Join(rest, sep)
  {
    assert ([head] + rest)[1..] == rest;
  }

  lemma Reassemble(s: string, i: int)
    requires 0 <= i < |s|
    ensures s[..i] + [s[i]] + s[i + 1..] == s
  {
  }

  /** Joining the parts of a split with the separator gives the string back. */
  lemma {:induction false} JoinSplit(s: string, sep: char, maxsplit: nat)
    ensures Join(Split(s, sep, maxsplit), sep) == s
    decreases maxsplit
  {
    var i := if maxsplit == 0 then -1 else Find(s, sep);
    if i < 0 {
      assert Split(s, sep, maxsplit) == [s];
    } else {
      var head, tail := s[..i], s[i + 1..];
      assert s[i] == sep;
      var rest := Split(tail, sep, maxsplit - 1);
      assert Split(s, sep, maxsplit) == [head] + rest;
      calc {
        Join([head] + rest, sep);
        { JoinCons(head, rest, sep); }
        head + [sep] + Join(rest, sep);
        { JoinSplit(tail, sep, maxsplit - 1); }
        head + [sep] + tail;
        { Reassemble(s, i); }
        s;
      }
      assert Join(Split(s, sep, maxsplit), sep) == Join([head] + rest, sep);
    }
  }

  /** A split that finds the separator: the text before it, then the split of the rest. */
  lemma SplitStep(s: string, sep: char, maxsplit: nat)
    requires 0 < maxsplit && 0 <= Find(s, sep)
    ensures var i := Find(s, sep);
            Split(s, sep, maxsplit) == [s[..i]] + Split(s[i + 1..], sep, maxsplit - 1)
  {
  }

  lemma PartsAround(head: string, sep: char, tail: string)
    ensures var s := head + [sep] + tail;
            s[..|head|] == head && s[|head| + 1..] == tail
  {
  }

  /** Splitting a join of separator-free parts gives the parts back. */
  lemma {:induction false} SplitJoin(parts: seq<string>, sep: char)
    requires 1 <= |parts|
    requires forall i :: 0 <= i < |parts| ==> sep !in parts[i]
    ensures Split(Join(parts, sep), sep, |parts| - 1) == parts
    decreases |parts|
  {
    if |parts| > 1 {
      var head, tail := parts[0], Join(parts[1..], sep);
      var s := Join(parts, sep);
      JoinCons(head, parts[1..], sep);
      assert [head] + parts[1..] == parts;
      assert forall k :: 0 <= k < |head| ==> head[k] != sep by {
        assert sep !in parts[0];
      }
      FindAfter(head, sep, tail);
      PartsAround(head, sep, tail);
      SplitJoin(parts[1..], sep);
      SplitStep(s, sep, |parts| - 1);
    }
  }

  /** The desktop's default save name: "result_" and the last part of the processed name split at its first two '_'. */
  function DefaultSaveName(processed: string): (r: string)
    ensures 7 <= |r| && r[..7] == "result_"
    ensures |r| - 7 <= |processed| && r[7..] == processed[|processed| - (|r| - 7)..]
  {
    var parts := Split(processed, '_', 2);
    JoinSplit(processed, '_', 2);
    JoinEndsWithLast(parts, '_');
    "result_" + parts[|parts| - 1]
  }

  /** A join ends with its last part. */
  lemma {:induction false} JoinEndsWithLast(parts: seq<string>, sep: char)
    requires 1 <= |parts|
    ensures var j, last := Join(parts, sep), parts[|parts| - 1];
            |last| <= |j| && j[|j| - |last|..] == last
    decreases |parts|
  {
    if |parts| > 1 {
      var rest := parts[1..];
      JoinEndsWithLast(rest, sep);
      var head, tail, last := parts[0] + [sep], Join(rest, sep), rest[|rest| - 1];
      assert Join(parts, sep) == head + tail;
      assert (head + tail)[|head + tail| - |last|..] == tail[|tail| - |last|..];
    }
  }

  /**
    A desktop upload is stored as `<hex>_<basename>` and its result as
    `processed_<hex>_<basename>`; the default save name gives back
    `result_<basename>`, even when the basename itself contains '_'.
  */
  lemma {:induction false} SaveNameRecoversBasename(hex: string, path: string)
    requires IsUuidHex(hex)
    ensures DefaultSaveName(ProcessedName(StoredName(hex, Basename(path)))) == "result_" + Basename(path)
  {
    var b := Basename(path);
    var p := ProcessedName(StoredName(hex, b));
    HexHasNoUnderscore(hex);
    assert p == "processed" + ['_'] + (hex + ['_'] + b);
    SplitProcessed(hex, b);
  }

  lemma HexHasNoUnderscore(hex: string)
    requires IsUuidHex(hex)
    ensures forall k :: 0 <= k < |hex| ==> hex[k] != '_'
  {
    forall k | 0 <= k < |hex|
      ensures hex[k] != '_'
    {
      assert hex[k] in HexDigits;
    }
  }

  /** `split('_', 2)` of "processed_<hex>_<b>" stops before `b`, whatever `b` holds. */
  lemma SplitProcessed(hex: string, b: string)
    requires forall k :: 0 <= k < |hex| ==> hex[k] != '_'
    ensures Split("processed" + ['_'] + (hex + ['_'] + b), '_', 2) == ["processed", hex, b]
  {
    var rest := hex + ['_'] + b;
    var p := "processed" + ['_'] + rest;
    FindAfter("processed", '_', rest);
    PartsAround("processed", '_', rest);
    SplitStep(p, '_', 2);
    FindAfter(hex, '_', b);
    PartsAround(hex, '_', b);
    SplitStep(rest, '_', 1);
    assert Split(b, '_', 0) == [b];
  }
}
