/** Deciding what kind of media the downloaded file is: the extension picked
    out of the URL, the path suffix, the image and video extension sets, and
    the re-classification of a `.bin` file by probing it. */
module MediaKind {
  import opened Wrappers
  import opened Geometry

  // ---------------------------------------------------------------------
  // Characters

  /** The regex class `[a-zA-Z0-9]`. */
  predicate IsAsciiAlnum(c: char) {
    ('a' <= c <= 'z') || ('A' <= c <= 'Z') || ('0' <= c <= '9')
  }

  /** str.lower() on one character, for the ASCII letters. */
  function LowerChar(c: char): (d: char)
    ensures 'A' <= c <= 'Z' ==> d as int == c as int + 32
    ensures !('A' <= c <= 'Z') ==> d == c
  {
    if 'A' <= c <= 'Z' then (c as int + 32) as char else c
  }

  /** str.lower() on a string, for ASCII text. */
  function Lower(s: string): (r: string)
    ensures |r| == |s|
    ensures forall i :: 0 <= i < |s| ==> r[i] == LowerChar(s[i])
  {
    seq(|s|, i requires 0 <= i < |s| => LowerChar(s[i]))
  }

  lemma LowerIdempotent(s: string)
    ensures Lower(Lower(s)) == Lower(s)
  {
  }

  // ---------------------------------------------------------------------
  // is_image / is_video

  const ImageExts: set<string> := {".jpg", ".jpeg", ".png", ".webp"}
  const VideoExts: set<string> := {".mp4", ".mov", ".m4v", ".webm"}

  /** is_image: the lower-cased suffix is an image extension. */
  predicate IsImage(suffix: string) {
    Lower(suffix) in ImageExts
  }

  /** is_video: the lower-cased suffix is a video extension. */
  predicate IsVideo(suffix: string) {
    Lower(suffix) in VideoExts
  }

  /** The listed extensions are already lower case, so each is recognised
      as written. */
  lemma ExtsRecognised()
    ensures forall e :: e in ImageExts ==> IsImage(e)
    ensures forall e :: e in VideoExts ==> IsVideo(e)
  {
    assert Lower(".jpg") == ".jpg" && Lower(".jpeg") == ".jpeg";
    assert Lower(".png") == ".png" && Lower(".webp") == ".webp";
    assert Lower(".mp4") == ".mp4" && Lower(".mov") == ".mov";
    assert Lower(".m4v") == ".m4v" && Lower(".webm") == ".webm";
  }

  /** `.bin` itself is neither an image nor a video extension. */
  lemma BinIsNoKind()
    ensures !IsImage(".bin") && !IsVideo(".bin")
  {
    assert Lower(".bin") == ".bin";
  }

  /** No suffix is both an image and a video extension, and the tests ignore
      the case of the suffix. */
  lemma KindsDisjoint(suffix: string)
    ensures !(IsImage(suffix) && IsVideo(suffix))
    ensures IsImage(suffix) == IsImage(Lower(suffix)) && IsVideo(suffix) == IsVideo(Lower(suffix))
  {
    LowerIdempotent(suffix);
  }

  // ---------------------------------------------------------------------
  // Path.suffix

  /** str.rfind(c): the last index of c in s, or -1. */
  function RFind(s: string, c: char): (i: int)
    ensures -1 <= i < |s|
    ensures i >= 0 ==> s[i] == c
    ensures forall j :: i < j < |s| ==> s[j] != c
  {
    if s == [] then -1
    else if s[|s| - 1] == c then |s| - 1
    else RFind(s[..|s| - 1], c)
  }

  /** PurePath.suffix of a file name: from its last dot, when that dot is
      neither the first nor the last character; otherwise empty. */
  function Suffix(name: string): (r: string)
    ensures r == [] || (r[0] == '.' && |r| >= 2)
  {
    var i := RFind(name, '.');
    if 0 < i < |name| - 1 then name[i..] else ""
  }

  /** A dot followed by at least one character and no further dot. */
  predicate IsExtension(ext: string) {
    |ext| >= 2 && ext[0] == '.' && forall j :: 1 <= j < |ext| ==> ext[j] != '.'
  }

  /** A non-empty stem followed by an extension has that extension as its
      suffix: this is how `input{ext}` and the output names are read back. */
  lemma SuffixAfterStem(stem: string, ext: string)
    requires |stem| >= 1 && IsExtension(ext)
    ensures Suffix(stem + ext) == ext
  {
    var name := stem + ext;
    var i := RFind(name, '.');
    assert name[|stem|] == '.';
    assert i == |stem|;
    assert name[i..] == ext;
  }

  // ---------------------------------------------------------------------
  // guess_ext_from_url: re.search(r"\.([a-zA-Z0-9]{2,5})(?:\?|$)", url)

  /** The length of the run of `[a-zA-Z0-9]` characters starting at j. */
  function AlnumRun(s: string, j: nat): (k: nat)
    requires j <= |s|
    ensures j + k <= |s|
    ensures forall m :: j <= m < j + k ==> IsAsciiAlnum(s[m])
    ensures j + k < |s| ==> !IsAsciiAlnum(s[j + k])
    decreases |s| - j
  {
    if j == |s| || !IsAsciiAlnum(s[j]) then 0 else 1 + AlnumRun(s, j + 1)
  }

  /** The scanner's test at position i: a dot, then a maximal run of 2 to 5
      alphanumerics, then `?` or the end of the string. */
  predicate ScanMatchAt(url: string, i: nat)
    requires i < |url|
  {
    url[i] == '.' &&
    var k := AlnumRun(url, i + 1);
    2 <= k <= 5 && (i + 1 + k == |url| || url[i + 1 + k] == '?')
  }

  /** The first position at or after i where the scanner's test holds. */
  function FirstMatch(url: string, i: nat): (r: Option<nat>)
    requires i <= |url|
    ensures r.Some? ==> i <= r.value < |url| && ScanMatchAt(url, r.value)
    ensures r.Some? ==> forall j :: i <= j < r.value ==> !ScanMatchAt(url, j)
    ensures r.None? ==> forall j :: i <= j < |url| ==> !ScanMatchAt(url, j)
    decreases |url| - i
  {
    if i == |url| then None
    else if ScanMatchAt(url, i) then Some(i)
    else FirstMatch(url, i + 1)
  }

  /** guess_ext_from_url: "." + the matched run, lower-cased, or None. */
  function GuessExtFromUrl(url: string): (r: Option<string>)
  {
    match FirstMatch(url, 0)
    case None => None
    case Some(i) => Some("." + Lower(url[i + 1 .. i + 1 + AlnumRun(url, i + 1)]))
  }

  /** What a guessed extension looks like: a dot and 2 to 5 lower-case ASCII
      letters or digits. */
  lemma GuessExtShape(url: string)
    requires GuessExtFromUrl(url).Some?
    ensures var e := GuessExtFromUrl(url).value;
      && 3 <= |e| <= 6 && e[0] == '.'
      && (forall j :: 1 <= j < |e| ==> ('a' <= e[j] <= 'z') || ('0' <= e[j] <= '9'))
      && IsExtension(e)
  {
    var i := FirstMatch(url, 0).value;
    var k := AlnumRun(url, i + 1);
    var e := GuessExtFromUrl(url).value;
    assert e == "." + Lower(url[i + 1 .. i + 1 + k]);
    forall j | 1 <= j < |e|
      ensures ('a' <= e[j] <= 'z') || ('0' <= e[j] <= '9')
    {
      assert e[j] == LowerChar(url[i + j]);
      assert IsAsciiAlnum(url[i + j]);
    }
  }

  /** The regex, read literally: a dot at i, a group of k (2 to 5)
      alphanumerics, then `?` or the end. */
  predicate RegexMatch(url: string, i: nat, k: nat) {
    && i + 1 + k <= |url| && url[i] == '.' && 2 <= k <= 5
    && (forall m :: i + 1 <= m < i + 1 + k ==> IsAsciiAlnum(url[m]))
    && (i + 1 + k == |url| || url[i + 1 + k] == '?')
  }

  /** A group followed by `?` or the end cannot be extended, so it is the
      whole alphanumeric run: the regex matches at i exactly when the scanner
      does, and with the run as its group (the only group length that works,
      hence also the one greedy backtracking settles on). */
  lemma {:induction false} RegexMatchIsRun(url: string, i: nat, k: nat)
    requires i < |url|
    ensures RegexMatch(url, i, k) <==> (ScanMatchAt(url, i) && k == AlnumRun(url, i + 1))
  {
  }

  /** guess_ext_from_url finds nothing exactly when the regex matches
      nowhere. */
  lemma GuessExtNone(url: string)
    ensures GuessExtFromUrl(url).None? <==> forall i: nat, k: nat :: !RegexMatch(url, i, k)
  {
    if GuessExtFromUrl(url).None? {
      forall i: nat, k: nat ensures !RegexMatch(url, i, k) {
        if i < |url| {
          RegexMatchIsRun(url, i, k);
        }
      }
    } else {
      var i := FirstMatch(url, 0).value;
      RegexMatchIsRun(url, i, AlnumRun(url, i + 1));
      assert RegexMatch(url, i, AlnumRun(url, i + 1));
    }
  }

  /** When guess_ext_from_url finds something, it is the group of the
      leftmost regex match, lower-cased, after a dot; and that match admits
      no other group length. */
  lemma GuessExtLeftmost(url: string)
    requires GuessExtFromUrl(url).Some?
    ensures exists i: nat, k: nat ::
      && RegexMatch(url, i, k)
      && GuessExtFromUrl(url).value == "." + Lower(url[i + 1 .. i + 1 + k])
      && (forall k': nat :: RegexMatch(url, i, k') ==> k' == k)
      && (forall j: nat, k': nat :: j < i ==> !RegexMatch(url, j, k'))
  {
    var i := FirstMatch(url, 0).value;
    var k := AlnumRun(url, i + 1);
    RegexMatchIsRun(url, i, k);
    forall k': nat | RegexMatch(url, i, k') ensures k' == k {
      RegexMatchIsRun(url, i, k');
    }
    forall j: nat, k': nat | j < i ensures !RegexMatch(url, j, k') {
      RegexMatchIsRun(url, j, k');
    }
  }

  /** A position where the scanner's test holds, with no match before it,
      is the first match. */
  lemma FirstMatchIs(url: string, p: nat)
    requires p < |url| && ScanMatchAt(url, p)
    requires forall j :: 0 <= j < p ==> !ScanMatchAt(url, j)
    ensures FirstMatch(url, 0) == Some(p)
  {
  }

  /** No match can start in a stretch without a dot. */
  lemma NoMatchWithoutDot(url: string, lo: nat, hi: nat)
    requires lo <= hi <= |url| && '.' !in url[lo..hi]
    ensures forall j :: lo <= j < hi ==> !ScanMatchAt(url, j)
  {
    forall j | lo <= j < hi ensures !ScanMatchAt(url, j) {
      assert url[j] == url[lo..hi][j - lo];
    }
  }

  /** The guess read off a first match at p whose run has length k. */
  lemma GuessExtAt(url: string, p: nat, k: nat, ext: string)
    requires p < |url| && FirstMatch(url, 0) == Some(p) && AlnumRun(url, p + 1) == k
    requires "." + Lower(url[p + 1 .. p + 1 + k]) == ext
    ensures GuessExtFromUrl(url) == Some(ext)
  {
  }

  /** guess_ext_from_url on a plain domain name. */
  lemma GuessExtDomain()
    ensures GuessExtFromUrl("https://example.com") == Some(".com")
  {
    var u := "https://example.com";
    DomainMatch();
    assert u[16..19] == "com";
    assert Lower("com") == "com";
    assert "." + "com" == ".com";
    GuessExtAt(u, 15, 3, ".com");
  }

  /** The scanner's first match in `https://example.com` is its only dot. */
  lemma DomainMatch()
    ensures FirstMatch("https://example.com", 0) == Some(15)
    ensures AlnumRun("https://example.com", 16) == 3
  {
    var u := "https://example.com";
    assert AlnumRun(u, 19) == 0;
    assert AlnumRun(u, 16) == 3;
    assert u[0..15] == "https://example";
    NoMatchWithoutDot(u, 0, 15);
    FirstMatchIs(u, 15);
  }

  /** A query string after the extension does not hide it, and the case of
      the extension is dropped. */
  lemma GuessExtQuery()
    ensures GuessExtFromUrl("a/clip.MP4?x=1") == Some(".mp4")
  {
    var v := "a/clip.MP4?x=1";
    QueryMatch();
    assert v[7..10] == "MP4";
    assert Lower("MP4") == "mp4";
    assert "." + "mp4" == ".mp4";
    GuessExtAt(v, 6, 3, ".mp4");
  }

  /** The scanner's first match in `a/clip.MP4?x=1` is the dot before MP4. */
  lemma QueryMatch()
    ensures FirstMatch("a/clip.MP4?x=1", 0) == Some(6)
    ensures AlnumRun("a/clip.MP4?x=1", 7) == 3
  {
    var v := "a/clip.MP4?x=1";
    assert !IsAsciiAlnum(v[10]);
    assert AlnumRun(v, 10) == 0;
    assert AlnumRun(v, 7) == 3;
    assert v[0..6] == "a/clip";
    NoMatchWithoutDot(v, 0, 6);
    FirstMatchIs(v, 6);
  }

  /** A dot in the host name is passed over when no extension-like run
      follows it; the extension of the path is found instead. */
  lemma GuessExtPath()
    ensures GuessExtFromUrl("https://example.com/photo.JPG?w=1") == Some(".jpg")
  {
    var u := "https://example.com/photo.JPG?w=1";
    PathUrlFirst();
    PathUrlRun();
    assert Lower("JPG") == "jpg";
    assert "." + "jpg" == ".jpg";
    GuessExtAt(u, 25, 3, ".jpg");
  }

  /** The scanner's first match in the example URL is the dot of `.JPG`. */
  lemma PathUrlFirst()
    ensures FirstMatch("https://example.com/photo.JPG?w=1", 0) == Some(25)
    ensures AlnumRun("https://example.com/photo.JPG?w=1", 26) == 3
  {
    PathUrlNoEarlyMatch();
    PathUrlMatch();
    FirstMatchIs("https://example.com/photo.JPG?w=1", 25);
  }

  /** The run after that dot is `JPG`. */
  lemma PathUrlRun()
    ensures "https://example.com/photo.JPG?w=1"[26..29] == "JPG"
  {
  }

  /** No match starts before the dot of `.JPG` in the example URL. */
  lemma PathUrlNoEarlyMatch()
    ensures forall j :: 0 <= j < 25 ==> !ScanMatchAt("https://example.com/photo.JPG?w=1", j)
  {
    var u := "https://example.com/photo.JPG?w=1";
    PathUrlScheme();
    PathUrlHostDot();
    PathUrlPath();
  }

  lemma PathUrlScheme()
    ensures forall j :: 0 <= j < 15 ==> !ScanMatchAt("https://example.com/photo.JPG?w=1", j)
  {
    var u := "https://example.com/photo.JPG?w=1";
    assert u[0..15] == "https://example";
    NoMatchWithoutDot(u, 0, 15);
  }

  lemma PathUrlHostDot()
    ensures !ScanMatchAt("https://example.com/photo.JPG?w=1", 15)
  {
    var u := "https://example.com/photo.JPG?w=1";
    assert AlnumRun(u, 19) == 0;
    assert AlnumRun(u, 16) == 3;
  }

  lemma PathUrlPath()
    ensures forall j :: 16 <= j < 25 ==> !ScanMatchAt("https://example.com/photo.JPG?w=1", j)
  {
    var u := "https://example.com/photo.JPG?w=1";
    assert u[16..25] == "com/photo";
    NoMatchWithoutDot(u, 16, 25);
  }

  /** The scanner matches at the dot of `.JPG` in the example URL. */
  lemma PathUrlMatch()
    ensures ScanMatchAt("https://example.com/photo.JPG?w=1", 25)
    ensures AlnumRun("https://example.com/photo.JPG?w=1", 26) == 3
  {
    var u := "https://example.com/photo.JPG?w=1";
    assert AlnumRun(u, 29) == 0;
    assert AlnumRun(u, 26) == 3;
  }

  // ---------------------------------------------------------------------
  // Re-classifying a `.bin` download

  /** What opening the file as an image yields: nothing, or the format name
      the image library reports (possibly none) and the pixel size. */
  datatype ImageProbe = Undecodable | Decoded(format: Option<string>, width: Pos, height: Pos)

  /** What probing the file for its first video stream yields. */
  datatype VideoProbe = NoStream | Stream(width: Pos, height: Pos)

  /** The extension an image format name is renamed to, if it is one of the
      three the program recognises (compared after lower-casing). */
  function FormatExt(format: Option<string>): (r: Option<string>)
    ensures r.Some? ==> IsImage(r.value)
    ensures r == Some(".jpg") <==> Lower(format.GetOr("")) in {"jpeg", "jpg"}
    ensures r == Some(".png") <==> Lower(format.GetOr("")) == "png"
    ensures r == Some(".webp") <==> Lower(format.GetOr("")) == "webp"
    ensures r.None? <==> Lower(format.GetOr("")) !in {"jpeg", "jpg", "png", "webp"}
  {
    ExtsRecognised();
    var f := Lower(format.GetOr(""));
    if f in {"jpeg", "jpg"} then Some(".jpg")
    else if f == "png" then Some(".png")
    else if f == "webp" then Some(".webp")
    else None
  }

  /** The suffix of the input file after the `.bin` step, or None when the
      type could not be determined. Only a `.bin` suffix is looked at; the
      video probe is consulted only when the file does not open as an
      image. */
  function ResolveBin(suffix: string, image: ImageProbe, video: VideoProbe): (r: Option<string>)
    ensures suffix != ".bin" ==> r == Some(suffix)
    ensures r.None? <==> suffix == ".bin" && image.Undecodable? && video.NoStream?
  {
    if suffix != ".bin" then Some(suffix)
    else match image
      case Decoded(format, _, _) => Some(FormatExt(format).GetOr(suffix))
      case Undecodable => if video.Stream? then Some(".mp4") else None
  }

  /** The outcomes of the `.bin` step: a recognised image format gives its
      extension, any other decodable image keeps `.bin` (whatever the video
      probe says), and an undecodable file with a video stream becomes
      `.mp4`. A resolved `.bin` is an image or a video unless it kept `.bin`. */
  lemma ResolveBinOutcomes(image: ImageProbe, video: VideoProbe)
    ensures image.Decoded? ==> ResolveBin(".bin", image, video) == Some(FormatExt(image.format).GetOr(".bin"))
    ensures image.Decoded? ==> ResolveBin(".bin", image, video) == ResolveBin(".bin", image, NoStream)
    ensures image.Undecodable? && video.Stream? ==> ResolveBin(".bin", image, video) == Some(".mp4")
    ensures ResolveBin(".bin", image, video) == Some(".bin") <==> image.Decoded? && FormatExt(image.format).None?
    ensures match ResolveBin(".bin", image, video)
      case Some(e) => e == ".bin" || IsImage(e) || IsVideo(e)
      case None => true
  {
    ExtsRecognised();
  }

  /** A probe reporting `PNG` renames `.bin` to `.png`. */
  lemma ResolveBinPng(w: Pos, h: Pos, video: VideoProbe)
    ensures ResolveBin(".bin", Decoded(Some("PNG"), w, h), video) == Some(".png")
  {
    assert Lower("PNG") == "png";
  }

  /** The format names JPEG, JPG and WEBP, in any case, rename `.bin` to
      `.jpg` and `.webp`; GIF keeps `.bin`. */
  lemma FormatExtNames()
    ensures FormatExt(Some("JPEG")) == Some(".jpg") && FormatExt(Some("jpg")) == Some(".jpg")
    ensures FormatExt(Some("WEBP")) == Some(".webp")
    ensures FormatExt(Some("GIF")).None? && FormatExt(None).None?
  {
    assert Lower("JPEG") == "jpeg";
    assert Lower("jpg") == "jpg";
    assert Lower("WEBP") == "webp";
    assert Lower("GIF") == "gif";
    assert Lower("") == "";
  }
}
