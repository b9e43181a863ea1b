/**
 * The upload configuration: which uploaded files the image filter lets
 * through, and the name a stored file gets on disk. `path.extname` is
 * modelled after Node's POSIX implementation; the clock is a parameter.
 */
module Multer {
  import opened JsStrings

  /** The parts of a multer file object the filter and the storage read. */
  datatype UploadedFile = UploadedFile(fieldname: string, originalname: string, mimetype: string)

  /** How the filter calls back: `cb(null, true)` or `cb(error)`. */
  datatype FilterDecision = Accept | Reject(error: string)

  const ImagesOnly := "Error: Images Only!"

  /** The alternatives of the filter's regular expression `/jpeg|jpg|png|gif/`. */
  const ImageWords: seq<string> := ["jpeg", "jpg", "png", "gif"]

  // ---------------------------------------------------------------------------
  // path.extname

  /** The index of the last `c` in `s`, or -1 when there is none (`LastIndexOfIsLast`). */
  function LastIndexOf(s: string, c: char): (r: int)
    ensures -1 <= r < |s|
  {
    if s == [] then -1
    else if s[|s| - 1] == c then |s| - 1
    else LastIndexOf(s[..|s| - 1], c)
  }

  /** The path without its trailing slashes. */
  function StripTrailingSlashes(p: string): string {
    if p != [] && p[|p| - 1] == '/' then StripTrailingSlashes(p[..|p| - 1]) else p
  }

  /** The last path segment (everything after the last slash). */
  function LastSegment(p: string): string {
    p[LastIndexOf(p, '/') + 1..]
  }

  /**
   * `path.extname`: the last segment of the path (trailing slashes ignored)
   * from its last dot on; empty when that segment has no dot, its only dot
   * leads it, or it is `..`.
   */
  function ExtName(p: string): string {
    var segment := LastSegment(StripTrailingSlashes(p));
    var dot := LastIndexOf(segment, '.');
    if dot < 1 || segment == ".." then "" else segment[dot..]
  }

  /** The found index holds `c` and nothing after it does; -1 means `c` does not occur. */
  lemma {:induction false} LastIndexOfIsLast(s: string, c: char)
    ensures LastIndexOf(s, c) >= 0 ==> s[LastIndexOf(s, c)] == c
    ensures forall i :: LastIndexOf(s, c) < i < |s| ==> s[i] != c
  {
    if s != [] && s[|s| - 1] != c {
      LastIndexOfIsLast(s[..|s| - 1], c);
    }
  }

  /** An index holding `c` with no `c` after it is the one `LastIndexOf` finds. */
  lemma LastIndexOfAt(s: string, c: char, k: int)
    requires -1 <= k < |s| && (k >= 0 ==> s[k] == c)
    requires forall i :: k < i < |s| ==> s[i] != c
    ensures LastIndexOf(s, c) == k
  {
    LastIndexOfIsLast(s, c);
  }

  /** Stripping keeps a prefix that does not end in a slash and drops only slashes. */
  lemma {:induction false} StripTrailingSlashesKeepsPrefix(p: string)
    ensures StripTrailingSlashes(p) <= p
    ensures StripTrailingSlashes(p) == [] || StripTrailingSlashes(p)[|StripTrailingSlashes(p)| - 1] != '/'
    ensures forall i :: |StripTrailingSlashes(p)| <= i < |p| ==> p[i] == '/'
  {
    if p != [] && p[|p| - 1] == '/' {
      StripTrailingSlashesKeepsPrefix(p[..|p| - 1]);
    }
  }

  /** The last segment holds no slash. */
  lemma LastSegmentNoSlash(p: string)
    ensures '/' !in LastSegment(p)
  {
    var k := LastIndexOf(p, '/') + 1;
    LastIndexOfIsLast(p, '/');
    assert forall i :: k <= i < |p| ==> p[i] != '/';
    assert forall i :: 0 <= i < |p| - k ==> p[k..][i] == p[k + i];
  }

  /** A non-empty extension is a dot followed by neither dots nor slashes. */
  lemma ExtNameShape(p: string)
    ensures var r := ExtName(p);
            r == [] || (r[0] == '.' && '.' !in r[1..] && '/' !in r)
  {
    var segment := LastSegment(StripTrailingSlashes(p));
    LastSegmentNoSlash(StripTrailingSlashes(p));
    var dot := LastIndexOf(segment, '.');
    LastIndexOfIsLast(segment, '.');
    if 1 <= dot && segment != ".." {
      var r := segment[dot..];
      forall i | 0 <= i < |r|
        ensures r[i] != '/' && (i > 0 ==> r[i] != '.')
      {
        assert r[i] == segment[dot + i];
      }
    }
  }

  // ---------------------------------------------------------------------------
  // fileFilter

  /** `/jpeg|jpg|png|gif/.test(s)`: the scan finds one of the alternatives. */
  predicate ImageType(s: string) {
    Contains(s, "jpeg") || Contains(s, "jpg") || Contains(s, "png") || Contains(s, "gif")
  }

  /**
   * The image filter: no file passes; otherwise both the lower-cased
   * extension of the original name and the mimetype as sent must mention an
   * image type.
   */
  function FileFilter(file: Option<UploadedFile>): FilterDecision {
    if file.None? then Accept
    else if ImageType(file.value.mimetype) && ImageType(Lower(ExtName(file.value.originalname))) then Accept
    else Reject(ImagesOnly)
  }

  /** One of the image alternatives occurs somewhere in `s`. */
  ghost predicate MentionsImageType(s: string) {
    exists w, i: nat :: w in ImageWords && OccursAt(s, w, i)
  }

  lemma ImageTypeIffMentions(s: string)
    ensures ImageType(s) <==> MentionsImageType(s)
  {
    ContainsIffOccurs(s, "jpeg");
    ContainsIffOccurs(s, "jpg");
    ContainsIffOccurs(s, "png");
    ContainsIffOccurs(s, "gif");
    if MentionsImageType(s) {
      var w, i: nat :| w in ImageWords && OccursAt(s, w, i);
      assert w == "jpeg" || w == "jpg" || w == "png" || w == "gif";
    }
  }

  /**
   * The filter lets a file through exactly when an image type occurs, anywhere,
   * in its mimetype and in its lower-cased extension; every refusal carries the
   * same message, and a request without a file is let through.
   */
  lemma FileFilterDecision(file: Option<UploadedFile>)
    ensures file.None? ==> FileFilter(file) == Accept
    ensures file.Some? ==>
              (FileFilter(file) == Accept <==>
                 MentionsImageType(file.value.mimetype) && MentionsImageType(Lower(ExtName(file.value.originalname))))
    ensures FileFilter(file) == Accept || FileFilter(file) == Reject("Error: Images Only!")
  {
    if file.Some? {
      ImageTypeIffMentions(file.value.mimetype);
      ImageTypeIffMentions(Lower(ExtName(file.value.originalname)));
    }
  }

  /** No alternative occurs in a string with no lower-case `j`, `p` or `g`. */
  lemma NotImageType(s: string)
    requires forall i :: 0 <= i < |s| ==> s[i] != 'j' && s[i] != 'p' && s[i] != 'g'
    ensures !ImageType(s)
  {
    forall w, i: nat | w in ImageWords
      ensures !OccursAt(s, w, i)
    {
      assert w == "jpeg" || w == "jpg" || w == "png" || w == "gif";
      assert w[0] == 'j' || w[0] == 'p' || w[0] == 'g';
      if i + |w| <= |s| {
        assert s[i..i + |w|][0] == s[i];
      }
    }
    ImageTypeIffMentions(s);
  }

  /** The mimetype is tested as sent: `IMAGE/PNG` is refused even for `cat.png`. */
  lemma MimetypeIsCaseSensitive(file: UploadedFile)
    requires file.originalname == "cat.png" && file.mimetype == "IMAGE/PNG"
    ensures FileFilter(Some(file)) == Reject(ImagesOnly)
  {
    NotImageType(file.mimetype);
  }

  /** An occurrence of one alternative is enough for the test to pass. */
  lemma ImageTypeAt(s: string, w: string, i: nat)
    requires w in ImageWords && OccursAt(s, w, i)
    ensures ImageType(s)
  {
    ImageTypeIffMentions(s);
  }

  /** `png` occurs where its three letters stand. */
  lemma PngAt(s: string, i: nat)
    requires i + 3 <= |s| && s[i] == 'p' && s[i + 1] == 'n' && s[i + 2] == 'g'
    ensures ImageType(s)
  {
    assert s[i..i + 3] == "png";
    ImageTypeAt(s, "png", i);
  }

  /** A file name whose extension starts with `png` in any letter case passes the extension test. */
  lemma PngExtension(o: string, base: string, ext: string)
    requires o == base + "." + ext
    requires base != [] && '/' !in base && '/' !in ext && '.' !in ext
    requires |ext| >= 3 && LowerChar(ext[0]) == 'p' && LowerChar(ext[1]) == 'n' && LowerChar(ext[2]) == 'g'
    ensures ImageType(Lower(ExtName(o)))
  {
    ExtNameOfFileName(base, ext);
    var e := Lower("." + ext);
    assert e[1] == LowerChar(ext[0]) && e[2] == LowerChar(ext[1]) && e[3] == LowerChar(ext[2]);
    PngAt(e, 1);
  }

  /** The extension is lower-cased before the test: `cat.PNG` sent as `image/png` passes. */
  lemma ExtensionIsCaseInsensitive(file: UploadedFile)
    requires file.originalname == "cat.PNG" && file.mimetype == "image/png"
    ensures FileFilter(Some(file)) == Accept
  {
    assert ImageType(Lower(ExtName(file.originalname))) by {
      PngExtension(file.originalname, "cat", "PNG");
    }
    assert ImageType(file.mimetype) by {
      PngAt(file.mimetype, 6);
    }
  }

  /** The regular expression is unanchored: an extension that merely contains `png` passes. */
  lemma FilterIsUnanchored(file: UploadedFile)
    requires file.originalname == "notes.pngx" && file.mimetype == "image/png"
    ensures FileFilter(Some(file)) == Accept
  {
    assert ImageType(Lower(ExtName(file.originalname))) by {
      PngExtension(file.originalname, "notes", "pngx");
    }
    assert ImageType(file.mimetype) by {
      PngAt(file.mimetype, 6);
    }
  }

  // ---------------------------------------------------------------------------
  // storage filename

  /** The stored name: `${fieldname}-${Date.now()}${path.extname(originalname)}`, the clock reading given. */
  function StoredFilename(fieldname: string, timestamp: nat, originalname: string): string {
    fieldname + "-" + Decimal(timestamp) + ExtName(originalname)
  }

  /** A path that does not end in a slash has none to strip. */
  lemma StripNothing(p: string)
    requires p != [] && p[|p| - 1] != '/'
    ensures StripTrailingSlashes(p) == p
  {
  }

  /** Appending text without `c` leaves the last index of `c` where it was. */
  lemma {:induction false} LastIndexOfAppend(pre: string, e: string, c: char)
    requires c !in e
    ensures LastIndexOf(pre + e, c) == LastIndexOf(pre, c)
    decreases |e|
  {
    if e != [] {
      var p := pre + e;
      var e' := e[..|e| - 1];
      assert p[|p| - 1] == e[|e| - 1];
      assert p[..|p| - 1] == pre + e';
      assert c !in e' by {
        forall i | 0 <= i < |e'|
          ensures e'[i] != c
        {
          assert e'[i] == e[i];
        }
      }
      LastIndexOfAppend(pre, e', c);
    } else {
      assert pre + e == pre;
    }
  }

  /** Appending text without slashes extends the last segment. */
  lemma LastSegmentOfAppend(pre: string, e: string)
    requires '/' !in e
    ensures LastSegment(pre + e) == LastSegment(pre) + e
  {
    var k := LastIndexOf(pre, '/');
    LastIndexOfAppend(pre, e, '/');
    assert (pre + e)[k + 1..] == pre[k + 1..] + e;
  }

  /** The dot that starts an extension without further dots is the last dot. */
  lemma LastDotOfAppend(front: string, e: string)
    requires e != [] && e[0] == '.' && '.' !in e[1..]
    ensures LastIndexOf(front + e, '.') == |front|
  {
    var p := front + e;
    forall i | |front| < i < |p|
      ensures p[i] != '.'
    {
      assert p[i] == e[1..][i - |front| - 1];
    }
    LastIndexOfAt(p, '.', |front|);
  }

  /** A string without dots has no last dot. */
  lemma NoLastDot(s: string)
    requires '.' !in s
    ensures LastIndexOf(s, '.') == -1
  {
    LastIndexOfAt(s, '.', -1);
  }

  /** The last segment of a path that ends in a character other than a slash ends in that character. */
  lemma LastSegmentEnd(p: string)
    requires p != [] && p[|p| - 1] != '/'
    ensures LastSegment(p) != [] && LastSegment(p)[|LastSegment(p)| - 1] == p[|p| - 1]
  {
    LastIndexOfIsLast(p, '/');
  }

  /** An extension appended to a name that ends in an ordinary character is the extension of the result. */
  lemma ExtNameOfSuffix(pre: string, e: string)
    requires pre != [] && pre[|pre| - 1] != '/' && pre[|pre| - 1] != '.'
    requires e == [] || (e[0] == '.' && '.' !in e[1..] && '/' !in e)
    requires e == [] ==> '.' !in LastSegment(pre)
    ensures ExtName(pre + e) == e
  {
    var p := pre + e;
    assert p[|p| - 1] != '/' by {
      if e != [] {
        assert p[|p| - 1] == e[|e| - 1];
      }
    }
    StripNothing(p);
    LastSegmentOfAppend(pre, e);
    var front := LastSegment(pre);
    LastSegmentEnd(pre);
    var segment := front + e;
    if e == [] {
      assert segment == front;
      NoLastDot(segment);
    } else {
      LastDotOfAppend(front, e);
      assert segment != "..";
      assert segment[|front|..] == e;
    }
  }

  /** The field name and the clock reading can be read back from every stored name. */
  lemma StoredFilenameReadsBack(fieldname: string, timestamp: nat, originalname: string)
    ensures var s := StoredFilename(fieldname, timestamp, originalname);
            var ext := ExtName(originalname);
            && s[..|fieldname| + 1] == fieldname + "-"
            && |fieldname| + 1 <= |s| - |ext|
            && AllDigits(s[|fieldname| + 1..|s| - |ext|])
            && DecimalValue(s[|fieldname| + 1..|s| - |ext|]) == timestamp
            && s[|s| - |ext|..] == ext
  {
    var digits := Decimal(timestamp);
    var s := fieldname + "-" + digits + ExtName(originalname);
    assert s[|fieldname| + 1..|s| - |ExtName(originalname)|] == digits;
    assert s[|s| - |ExtName(originalname)|..] == ExtName(originalname);
    DecimalRoundTrip(timestamp);
  }

  /**
   * The stored name keeps the original's extension, unless the original has
   * none and a dot in the field name supplies one.
   */
  lemma StoredFilenameKeepsExtension(fieldname: string, timestamp: nat, originalname: string)
    requires ExtName(originalname) != [] || '.' !in fieldname
    ensures ExtName(StoredFilename(fieldname, timestamp, originalname)) == ExtName(originalname)
  {
    var digits := Decimal(timestamp);
    var pre := fieldname + "-" + digits;
    var ext := ExtName(originalname);
    ExtNameShape(originalname);
    assert IsDigit(pre[|pre| - 1]);
    if ext == [] {
      NoDotInStoredName(fieldname, digits);
    }
    ExtNameOfSuffix(pre, ext);
  }

  /** Without a dot in the field name, the stored name's last segment has no dot before the extension. */
  lemma NoDotInStoredName(fieldname: string, digits: string)
    requires '.' !in fieldname && AllDigits(digits)
    ensures '.' !in LastSegment(fieldname + "-" + digits)
  {
    var pre := fieldname + "-" + digits;
    forall j | 0 <= j < |pre|
      ensures pre[j] != '.'
    {
      if j < |fieldname| {
        assert pre[j] == fieldname[j];
      } else if j > |fieldname| {
        assert pre[j] == digits[j - |fieldname| - 1];
      }
    }
    var k := LastIndexOf(pre, '/') + 1;
    var seg := LastSegment(pre);
    forall i | 0 <= i < |seg|
      ensures seg[i] != '.'
    {
      assert seg[i] == pre[k + i];
    }
  }

  /** `path.extname` of `base.ext` is `.ext` for an extension without dots or slashes. */
  lemma ExtNameOfFileName(base: string, ext: string)
    requires base != [] && '/' !in base && '/' !in ext && '.' !in ext
    requires base + "." + ext != ".."
    ensures ExtName(base + "." + ext) == "." + ext
  {
    var p := base + "." + ext;
    assert p[|p| - 1] != '/';
    assert StripTrailingSlashes(p) == p;
    LastIndexOfAt(p, '/', -1) by {
      forall i | 0 <= i < |p|
        ensures p[i] != '/'
      {
        if i < |base| {
          assert p[i] == base[i];
        } else if i > |base| {
          assert p[i] == ext[i - |base| - 1];
        }
      }
    }
    assert LastSegment(p) == p;
    LastIndexOfAt(p, '.', |base|) by {
      forall i | |base| < i < |p|
        ensures p[i] != '.'
      {
        assert p[i] == ext[i - |base| - 1];
      }
    }
    assert p[|base|..] == "." + ext;
  }
}
