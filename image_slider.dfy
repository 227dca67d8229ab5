/** The image-slide upload of imageSlider.js: the `fileFilter` extension
    test, the stored filename `slide-<Date.now()>-<round(random * 1e9)><ext>`
    with `ext = path.extname(originalname)` under POSIX rules, and the
    slides built from the stored files with `order = index + 1`. The clock
    and random readings of each file are parameters. */
module ImageSlider {
  import opened Common

  // ---------------------------------------------------------------------
  // fileFilter: /\.(jpg|jpeg|png|gif|webp)$/, case-sensitive
  // ---------------------------------------------------------------------

  predicate EndsWith(s: string, suffix: string) {
    |suffix| <= |s| && s[|s| - |suffix|..] == suffix
  }

  lemma EndsWithTrans(a: string, b: string, c: string)
    requires EndsWith(a, b) && EndsWith(b, c)
    ensures EndsWith(a, c)
  {
    assert a[|a| - |c|..] == a[|a| - |b|..][|b| - |c|..];
  }

  /** A name ending in a non-empty suffix ends in that suffix's last
      character. */
  lemma EndsWithLast(s: string, suffix: string)
    requires EndsWith(s, suffix) && suffix != []
    ensures s[|s| - 1] == suffix[|suffix| - 1]
  {
    assert s[|s| - 1] == s[|s| - |suffix|..][|suffix| - 1];
  }

  /** The extensions the filter accepts, dot included. */
  const ImageExtensions: seq<string> := [".jpg", ".jpeg", ".png", ".gif", ".webp"]

  predicate AcceptsImage(originalName: string) {
    exists i :: 0 <= i < |ImageExtensions| && EndsWith(originalName, ImageExtensions[i])
  }

  /** Each accepted extension is a dot followed by dot-free letters. */
  lemma ImageExtensionShape(i: int)
    requires 0 <= i < |ImageExtensions|
    ensures var e := ImageExtensions[i]; |e| >= 2 && e[0] == '.' && '.' !in e[1..] && e[|e| - 1] != '/'
  {
  }

  /** The filter does not fold case: `photo.JPG` is refused. */
  lemma UpperCaseRefused()
    ensures !AcceptsImage("photo.JPG")
  {
    var n := "photo.JPG";
    assert n[|n| - 4..] == ".JPG";
    assert n[|n| - 5..] == "o.JPG";
  }

  // ---------------------------------------------------------------------
  // path.extname (POSIX)
  // ---------------------------------------------------------------------

  /** The path without its trailing slashes. */
  function StripTrailingSlashes(p: string): (q: string)
    ensures |q| <= |p| && q == p[..|q|]
    ensures q == [] || q[|q| - 1] != '/'
    ensures forall i :: |q| <= i < |p| ==> p[i] == '/'
  {
    if p != [] && p[|p| - 1] == '/' then StripTrailingSlashes(p[..|p| - 1]) else p
  }

  /** What follows the last slash. */
  function AfterLastSlash(p: string): (seg: string)
    ensures |seg| <= |p| && seg == p[|p| - |seg|..]
    ensures '/' !in seg
    ensures '/' !in p ==> seg == p
    ensures |seg| < |p| ==> p[|p| - |seg| - 1] == '/'
  {
    if p == [] || p[|p| - 1] == '/' then []
    else
      var seg := AfterLastSlash(p[..|p| - 1]) + [p[|p| - 1]];
      assert '/' !in p ==> '/' !in p[..|p| - 1];
      seg
  }

  /** The last path segment, trailing slashes ignored. */
  function LastSegment(p: string): (seg: string)
    ensures '/' !in seg
    ensures (p == [] || p[|p| - 1] != '/') ==> EndsWith(p, seg)
  {
    AfterLastSlash(StripTrailingSlashes(p))
  }

  /** The index of the last dot. */
  function LastDot(s: string): (r: Option<nat>)
    ensures r.None? <==> '.' !in s
    ensures r.Some? ==> r.value < |s| && s[r.value] == '.' && '.' !in s[r.value + 1..]
  {
    if s == [] then None
    else if s[|s| - 1] == '.' then Some(|s| - 1)
    else
      var r := LastDot(s[..|s| - 1]);
      assert s == s[..|s| - 1] + [s[|s| - 1]];
      if r.Some? then
        assert s[r.value + 1..] == s[..|s| - 1][r.value + 1..] + [s[|s| - 1]];
        r
      else r
  }

  /** The suffix of the last segment from its last dot: a single leading
      dot, no slash, and a suffix of the path. */
  lemma DotSuffixShape(p: string, d: nat)
    requires d < |LastSegment(p)| && LastSegment(p)[d] == '.' && '.' !in LastSegment(p)[d + 1..]
    ensures var ext := LastSegment(p)[d..];
            ext[0] == '.' && '.' !in ext[1..] && '/' !in ext
    ensures (p == [] || p[|p| - 1] != '/') ==> EndsWith(p, LastSegment(p)[d..])
  {
    var seg := LastSegment(p);
    var ext := seg[d..];
    assert ext[1..] == seg[d + 1..];
    forall i | 0 <= i < |ext|
      ensures ext[i] != '/'
    {
      assert ext[i] == seg[d + i];
    }
    assert EndsWith(seg, ext);
    if p == [] || p[|p| - 1] != '/' {
      EndsWithTrans(p, seg, ext);
    }
  }

  /** `path.extname`: from the last dot of the last segment to its end; the
      empty string when that segment has no dot, when its only leading
      part is the dot itself (`.png`, `.bashrc`), or when it is `..`. */
  function ExtName(p: string): (ext: string)
    ensures ext == [] || (ext[0] == '.' && '.' !in ext[1..] && '/' !in ext)
    ensures (p == [] || p[|p| - 1] != '/') ==> EndsWith(p, ext)
  {
    var seg := LastSegment(p);
    match LastDot(seg)
    case None => []
    case Some(d) =>
      if d == 0 || seg == ".." then []
      else
        DotSuffixShape(p, d);
        seg[d..]
  }

  /** A name with no slash whose last dot is preceded by something has
      that dot's suffix as its extension. */
  lemma {:induction false} ExtNameOfPlainName(prefix: string, ext: string)
    requires prefix != [] && '/' !in prefix && '.' !in prefix
    requires ext == [] || (ext[0] == '.' && '.' !in ext[1..] && '/' !in ext)
    ensures ExtName(prefix + ext) == ext
  {
    var s := prefix + ext;
    assert s[|s| - 1] != '/' by {
      if ext == [] {
        assert s[|s| - 1] == prefix[|prefix| - 1];
      } else {
        assert s[|s| - 1] == ext[|ext| - 1];
      }
    }
    assert '/' !in s by {
      forall i | 0 <= i < |s|
        ensures s[i] != '/'
      {
        if i < |prefix| { assert s[i] == prefix[i]; } else { assert s[i] == ext[i - |prefix|]; }
      }
    }
    assert StripTrailingSlashes(s) == s;
    assert LastSegment(s) == s;
    if ext == [] {
      assert s == prefix;
    } else {
      assert s[|prefix|] == '.';
      assert s[|prefix| + 1..] == ext[1..];
      var d := LastDot(s).value;
      assert d == |prefix|;
      assert s != ".." by {
        assert s[0] == prefix[0];
      }
      assert s[|prefix|..] == ext;
    }
  }

  /** A name made of a dot and an extension alone has none. */
  lemma DotFileHasNoExtension()
    ensures ExtName(".png") == ""
  {
    var s := ".png";
    assert StripTrailingSlashes(s) == s;
    assert LastSegment(s) == s;
    assert LastDot(s) == Some(0) by {
      assert s[1..] == "png";
    }
  }

  // ---------------------------------------------------------------------
  // The stored filename
  // ---------------------------------------------------------------------

  /** `'slide-' + Date.now() + '-' + Math.round(Math.random() * 1E9) +
      path.extname(file.originalname)`. */
  function StoredFilename(now: nat, rnd: nat, originalName: string): (f: string)
    ensures EndsWith(f, ExtName(originalName))
  {
    "slide-" + Decimal(now) + "-" + Decimal(rnd) + ExtName(originalName)
  }

  /** The stored name keeps the original's extension. */
  lemma StoredFilenameKeepsExtension(now: nat, rnd: nat, originalName: string)
    ensures ExtName(StoredFilename(now, rnd, originalName)) == ExtName(originalName)
  {
    var prefix := "slide-" + Decimal(now) + "-" + Decimal(rnd);
    assert forall i :: 0 <= i < |Decimal(now)| ==> IsDigit(Decimal(now)[i]);
    assert forall i :: 0 <= i < |Decimal(rnd)| ==> IsDigit(Decimal(rnd)[i]);
    assert '/' !in prefix && '.' !in prefix by {
      forall i | 0 <= i < |prefix|
        ensures prefix[i] != '/' && prefix[i] != '.'
      {
        var a := "slide-" + Decimal(now);
        if i < |a| {
          if i >= 6 { assert prefix[i] == Decimal(now)[i - 6]; }
        } else if i > |a| {
          assert prefix[i] == Decimal(rnd)[i - |a| - 1];
        }
      }
    }
    ExtNameOfPlainName(prefix, ExtName(originalName));
  }

  /** Two suffixes of one name, each with a single dot at its start, are
      the same suffix. */
  lemma DotSuffixUnique(n: string, x: string, e: string)
    requires EndsWith(n, x) && EndsWith(n, e)
    requires x != [] && x[0] == '.' && '.' !in x[1..]
    requires e != [] && e[0] == '.' && '.' !in e[1..]
    ensures x == e
  {
  }

  /** An accepted name with an extension has one of the image extensions. */
  lemma AcceptedExtension(originalName: string)
    requires AcceptsImage(originalName) && ExtName(originalName) != ""
    ensures ExtName(originalName) in ImageExtensions
  {
    var i :| 0 <= i < |ImageExtensions| && EndsWith(originalName, ImageExtensions[i]);
    var e := ImageExtensions[i];
    ImageExtensionShape(i);
    EndsWithLast(originalName, e);
    DotSuffixUnique(originalName, ExtName(originalName), e);
  }

  /** A stored file is still an image name, unless the original was a bare
      extension such as `.png`, which the filter accepts but whose
      extension is empty. */
  lemma StoredNameAccepted(now: nat, rnd: nat, originalName: string)
    requires AcceptsImage(originalName) && ExtName(originalName) != ""
    ensures AcceptsImage(StoredFilename(now, rnd, originalName))
  {
    AcceptedExtension(originalName);
  }

  /** `.png` passes the filter, but is stored as `slide-<now>-<rnd>` with no
      extension at all. */
  lemma BareExtensionStoredWithout(now: nat, rnd: nat)
    ensures AcceptsImage(".png")
    ensures StoredFilename(now, rnd, ".png") == "slide-" + Decimal(now) + "-" + Decimal(rnd)
  {
    assert EndsWith(".png", ImageExtensions[2]);
    DotFileHasNoExtension();
  }

  // ---------------------------------------------------------------------
  // The slides of an upload
  // ---------------------------------------------------------------------

  datatype ImageSlide = ImageSlide(imageUrl: string, order: int)

  const UrlPrefix: string := "/uploads/slider/"

  /** `req.files.map((file, index) => ({ imageUrl, order: index + 1 }))`
      over the stored filenames. */
  function SlidesFor(filenames: seq<string>): (slides: seq<ImageSlide>)
    ensures |slides| == |filenames|
    ensures forall i :: 0 <= i < |slides| ==> slides[i].order == i + 1
    ensures forall i :: 0 <= i < |slides| ==> EndsWith(slides[i].imageUrl, filenames[i])
  {
    seq(|filenames|, i requires 0 <= i < |filenames| => ImageSlide(UrlPrefix + filenames[i], i + 1))
  }

  /** The stored filename read back from an image URL. */
  function FilenameOf(s: ImageSlide): string {
    if |s.imageUrl| >= |UrlPrefix| && s.imageUrl[..|UrlPrefix|] == UrlPrefix
    then s.imageUrl[|UrlPrefix|..] else s.imageUrl
  }

  /** The URLs give the stored files back, in upload order. */
  lemma SlidesForRoundTrip(filenames: seq<string>)
    ensures var slides := SlidesFor(filenames);
            forall i :: 0 <= i < |slides| ==> FilenameOf(slides[i]) == filenames[i]
  {
    var slides := SlidesFor(filenames);
    forall i | 0 <= i < |slides|
      ensures FilenameOf(slides[i]) == filenames[i]
    {
      assert (UrlPrefix + filenames[i])[..|UrlPrefix|] == UrlPrefix;
      assert (UrlPrefix + filenames[i])[|UrlPrefix|..] == filenames[i];
    }
  }

  // ---------------------------------------------------------------------
  // POST /upload-image-slides
  // ---------------------------------------------------------------------

  /** The readings of `Date.now()` and `Math.round(Math.random() * 1E9)`
      when a file is named. */
  datatype Stamp = Stamp(now: nat, rnd: nat)

  datatype UploadReply =
    | Rejected(status: int, message: string)
    | Uploaded(slides: seq<ImageSlide>)

  /** The number of files the `images` field takes. */
  const MaxFiles: nat := 10

  /** Multer passes file `j` on: it is among the first ten, and the filter
      accepts it. */
  predicate Admitted(names: seq<string>, j: int)
    requires 0 <= j < |names|
  {
    j < MaxFiles && AcceptsImage(names[j])
  }

  /** The first file, from index `i` on, that multer refuses: the
      eleventh one, or one the filter rejects. */
  function FirstRefused(names: seq<string>, i: nat): (r: Option<nat>)
    requires forall j :: 0 <= j < i && j < |names| ==> Admitted(names, j)
    ensures r.Some? ==> i <= r.value < |names| && !Admitted(names, r.value)
    ensures r.Some? ==> forall j :: 0 <= j < r.value ==> Admitted(names, j)
    ensures r.None? <==> forall j :: 0 <= j < |names| ==> Admitted(names, j)
    decreases |names| - i
  {
    if i >= |names| then None
    else if !Admitted(names, i) then Some(i)
    else FirstRefused(names, i + 1)
  }

  /** Every file passes exactly when there are at most ten and all are
      image names. */
  lemma AllAdmitted(names: seq<string>)
    ensures (forall j :: 0 <= j < |names| ==> Admitted(names, j)) <==>
            |names| <= MaxFiles && forall j :: 0 <= j < |names| ==> AcceptsImage(names[j])
  {
    if forall j :: 0 <= j < |names| ==> Admitted(names, j) {
      if |names| > 0 {
        assert Admitted(names, |names| - 1);
      }
      forall j | 0 <= j < |names|
        ensures AcceptsImage(names[j])
      {
        assert Admitted(names, j);
      }
    }
  }

  /** Why multer refused file `k`: past the tenth file every earlier file
      was an image; before it, the file itself was not one. */
  lemma FirstRefusedReason(names: seq<string>, k: nat)
    requires FirstRefused(names, 0) == Some(k)
    ensures k >= MaxFiles ==> forall j :: 0 <= j < MaxFiles ==> AcceptsImage(names[j])
    ensures k < MaxFiles ==> !AcceptsImage(names[k]) && forall j :: 0 <= j < k ==> AcceptsImage(names[j])
  {
    forall j | 0 <= j < k
      ensures j < MaxFiles && AcceptsImage(names[j])
    {
      assert Admitted(names, j);
    }
  }

  /** The upload: the first refused file fails the request with multer's
      error (500: "Unexpected field" past the tenth file, "Only image files
      are allowed!" for a non-image); no file at all is a 400; otherwise
      every file is stored and the slides are numbered from 1. */
  function UploadImageSlides(names: seq<string>, stamps: seq<Stamp>): (r: UploadReply)
    requires |stamps| == |names|
    ensures r.Uploaded? <==> 0 < |names| <= MaxFiles && forall j :: 0 <= j < |names| ==> AcceptsImage(names[j])
    ensures names == [] ==> r == Rejected(400, "Please upload at least one image")
    // a non-image among the first ten files is refused by the filter
    ensures (exists j :: 0 <= j < |names| && j < MaxFiles && !AcceptsImage(names[j])) ==>
              r == Rejected(500, "Only image files are allowed!")
    // eleven or more image files overflow the field
    ensures |names| > MaxFiles && (forall j :: 0 <= j < |names| ==> AcceptsImage(names[j])) ==>
              r == Rejected(500, "Unexpected field")
    ensures r.Uploaded? ==>
              |r.slides| == |names| &&
              forall i :: 0 <= i < |names| ==>
                r.slides[i] == ImageSlide(UrlPrefix + StoredFilename(stamps[i].now, stamps[i].rnd, names[i]), i + 1)
  {
    AllAdmitted(names);
    match FirstRefused(names, 0)
    case Some(k) =>
      FirstRefusedReason(names, k);
      if k >= MaxFiles then Rejected(500, "Unexpected field")
      else Rejected(500, "Only image files are allowed!")
    case None =>
      if |names| == 0 then Rejected(400, "Please upload at least one image")
      else
        Uploaded(SlidesFor(seq(|names|, i requires 0 <= i < |names| =>
                                 StoredFilename(stamps[i].now, stamps[i].rnd, names[i]))))
  }
}
