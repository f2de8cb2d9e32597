/** The decision logic of main: the focal point and target from the
    arguments, the input file's extension, the `.bin` step, the output file
    name and the choice between the image and the video path. The probes of
    the downloaded file are parameters. */
module Dispatch {
  import opened Wrappers
  import opened Geometry
  import opened MediaKind
  import opened Transform

  // ---------------------------------------------------------------------
  // str.strip()

  /** The characters for which Python's str.isspace() holds. */
  predicate IsPySpace(c: char) {
    var n := c as int;
    (9 <= n <= 13) || (0x1c <= n <= 0x20) || n == 0x85 || n == 0xa0 || n == 0x1680
    || (0x2000 <= n <= 0x200a) || n == 0x2028 || n == 0x2029 || n == 0x202f
    || n == 0x205f || n == 0x3000
  }

  /** s without its leading whitespace. */
  function StripLeft(s: string): (r: string)
    ensures |r| <= |s| && r == s[|s| - |r|..]
    ensures forall k :: 0 <= k < |s| - |r| ==> IsPySpace(s[k])
    ensures r == [] || !IsPySpace(r[0])
  {
    if s != [] && IsPySpace(s[0]) then StripLeft(s[1..]) else s
  }

  /** s without its trailing whitespace. */
  function StripRight(s: string): (r: string)
    ensures |r| <= |s| && r == s[..|r|]
    ensures forall k :: |r| <= k < |s| ==> IsPySpace(s[k])
    ensures r == [] || !IsPySpace(r[|r| - 1])
  {
    if s != [] && IsPySpace(s[|s| - 1]) then StripRight(s[..|s| - 1]) else s
  }

  /** str.strip(): s without whitespace at either end. */
  function Strip(s: string): string {
    StripRight(StripLeft(s))
  }

  /** What strip removes and what it keeps: the result is a slice of s, only
      whitespace lies outside it, and it neither starts nor ends with
      whitespace; it is empty exactly when s is all whitespace. */
  lemma StripShape(s: string)
    ensures exists i, j ::
      && 0 <= i <= j <= |s| && Strip(s) == s[i..j]
      && (forall k :: 0 <= k < i ==> IsPySpace(s[k]))
      && (forall k :: j <= k < |s| ==> IsPySpace(s[k]))
    ensures Strip(s) == [] || (!IsPySpace(Strip(s)[0]) && !IsPySpace(Strip(s)[|Strip(s)| - 1]))
    ensures Strip(s) == [] <==> forall k :: 0 <= k < |s| ==> IsPySpace(s[k])
  {
    var i, j := StripBounds(s);
    StripEnds(s);
    StripEmpty(s);
  }

  /** The slice strip() keeps, with only whitespace outside it. */
  lemma StripBounds(s: string) returns (i: nat, j: nat)
    ensures i <= j <= |s| && Strip(s) == s[i..j]
    ensures forall k :: 0 <= k < i ==> IsPySpace(s[k])
    ensures forall k :: j <= k < |s| ==> IsPySpace(s[k])
  {
    var t := StripLeft(s);
    i := |s| - |t|;
    var r := StripRight(t);
    j := i + |r|;
    SliceOfSuffix(s, i, |r|);
    TrailingOfSuffix(s, i, |r|);
  }

  lemma SliceOfSuffix(s: string, i: nat, n: nat)
    requires i + n <= |s|
    ensures s[i..][..n] == s[i..i + n]
  {
  }

  /** Whitespace at the end of the suffix from i is whitespace at the end
      of s. */
  lemma TrailingOfSuffix(s: string, i: nat, n: nat)
    requires i + n <= |s|
    requires forall k :: n <= k < |s| - i ==> IsPySpace(s[i..][k])
    ensures forall k :: i + n <= k < |s| ==> IsPySpace(s[k])
  {
    forall k | i + n <= k < |s| ensures IsPySpace(s[k]) {
      assert s[k] == s[i..][k - i];
    }
  }

  /** Neither end of a non-empty strip() result is whitespace. */
  lemma StripEnds(s: string)
    ensures Strip(s) == [] || (!IsPySpace(Strip(s)[0]) && !IsPySpace(Strip(s)[|Strip(s)| - 1]))
  {
    var t := StripLeft(s);
    var r := StripRight(t);
    assert r != [] ==> r[0] == t[0];
  }

  /** strip() leaves nothing exactly when every character is whitespace. */
  lemma StripEmpty(s: string)
    ensures Strip(s) == [] <==> forall k :: 0 <= k < |s| ==> IsPySpace(s[k])
  {
    var t := StripLeft(s);
    assert t != [] ==> t[0] == s[|s| - |t|];
  }

  /** Stripping twice is stripping once. */
  lemma StripIdempotent(s: string)
    ensures Strip(Strip(s)) == Strip(s)
  {
    var r := Strip(s);
    StripShape(s);
    assert StripLeft(r) == r;
    assert StripRight(r) == r;
  }

  /** `args.filename.strip() or "output"`. */
  function BaseName(filename: string): (b: string)
    ensures b != []
    ensures Strip(filename) != [] ==> b == Strip(filename)
    ensures Strip(filename) == [] ==> b == "output"
  {
    var s := Strip(filename);
    if s == [] then "output" else s
  }

  // ---------------------------------------------------------------------
  // Platforms and the output name

  /** PLATFORMS: the target width and height of each `--platform` choice. */
  const Platforms: map<string, (Pos, Pos)> := map[
    "tiktok" := (1080, 1920),
    "instagram" := (1080, 1920),
    "yt_shorts" := (1080, 1920),
    "facebook" := (1080, 1920)]

  /** Every platform targets the same 9:16 frame, and no platform name has a
      dot in it. */
  lemma PlatformsTarget()
    ensures forall p :: p in Platforms ==> Platforms[p] == (1080, 1920)
    ensures forall p :: p in Platforms ==> '.' !in p
  {
  }

  /** The two ways main fails once the file is downloaded, and the
      rejection of an unknown `--platform`. */
  datatype Error =
    | UnknownPlatform(name: string)
    | KindUnresolved          // neither the image nor the video probe recognised a `.bin` file
    | UnknownType(suffix: string)
    | ImageUndecodable        // the image library cannot open the input
    | NoVideoStream           // ffprobe reports no video stream

  datatype Kind = ImageKind | VideoKind

  /** The path main takes for a suffix: the image test comes first, then
      the video test. */
  function KindOf(suffix: string): (k: Option<Kind>)
    ensures k == Some(ImageKind) <==> IsImage(suffix)
    ensures k == Some(VideoKind) <==> IsVideo(suffix)
    ensures k == None <==> !IsImage(suffix) && !IsVideo(suffix)
  {
    KindsDisjoint(suffix);
    if IsImage(suffix) then Some(ImageKind)
    else if IsVideo(suffix) then Some(VideoKind)
    else None
  }

  /** The extension each path writes. */
  function OutputExt(k: Kind): (e: string)
    ensures IsExtension(e)
  {
    match k
    case ImageKind => ".jpg"
    case VideoKind => ".mp4"
  }

  /** The file name main writes under `out/`: `{base}_{platform}.jpg` for an
      image, `{base}_{platform}.mp4` for a video, or the unknown-type error
      naming the suffix. */
  function OutputName(suffix: string, filename: string, platform: string): (r: Result<string, Error>)
    ensures r.Err? <==> !IsImage(suffix) && !IsVideo(suffix)
    ensures r.Err? ==> r.error == UnknownType(suffix)
  {
    match KindOf(suffix)
    case None => Err(UnknownType(suffix))
    case Some(k) => Ok(BaseName(filename) + "_" + platform + OutputExt(k))
  }

  /** The output name starts with the base name and the platform, and its
      own suffix puts it in the same kind as the input: a `.jpg` for an
      image, an `.mp4` for a video. */
  lemma OutputNameKind(suffix: string, filename: string, platform: string)
    requires OutputName(suffix, filename, platform).Ok?
    ensures var name := OutputName(suffix, filename, platform).value;
      var stem := BaseName(filename) + "_" + platform;
      && |name| > |stem| && name[..|stem|] == stem
      && Suffix(name) == (if IsImage(suffix) then ".jpg" else ".mp4")
      && KindOf(Suffix(name)) == KindOf(suffix)
  {
    var k := KindOf(suffix).value;
    var stem := BaseName(filename) + "_" + platform;
    var name := OutputName(suffix, filename, platform).value;
    assert name == stem + OutputExt(k);
    assert name[..|stem|] == stem;
    SuffixAfterStem(stem, OutputExt(k));
    ExtsRecognised();
  }

  // ---------------------------------------------------------------------
  // main

  /** The parsed command line, with `--focal-x`/`--focal-y` already read as
      numbers. */
  datatype Args = Args(mediaUrl: string, platform: string, mode: Mode, focalX: real, focalY: real, filename: string)

  /** What main hands on: the output file name and the image operation or
      the `-vf` string for ffmpeg. */
  datatype Job = ImageJob(output: string, op: ImageOp) | VideoJob(output: string, filter: string)

  /** The extension the download is saved under: the one guessed from the
      URL, or `.bin`. */
  function InputExt(url: string): (e: string)
    ensures IsExtension(e)
    ensures Suffix("input" + e) == e
  {
    match GuessExtFromUrl(url)
    case None =>
      SuffixAfterStem("input", ".bin");
      ".bin"
    case Some(e) =>
      GuessExtShape(url);
      SuffixAfterStem("input", e);
      e
  }

  /** main from the parsed arguments to the job it runs, given what the
      image library and ffprobe make of the downloaded file. */
  function Plan(args: Args, image: ImageProbe, video: VideoProbe): (r: Result<Job, Error>)
    ensures args.platform !in Platforms ==> r == Err(UnknownPlatform(args.platform))
    ensures r.Ok? ==>
      && ResolveBin(InputExt(args.mediaUrl), image, video).Some?
      && OutputName(ResolveBin(InputExt(args.mediaUrl), image, video).value, args.filename, args.platform)
         == Ok(r.value.output)
    ensures r.Ok? && r.value.ImageJob? ==> image.Decoded?
    ensures r.Ok? && r.value.VideoJob? ==> video.Stream?
  {
    var fx := Clamp01(args.focalX);
    var fy := Clamp01(args.focalY);
    if args.platform !in Platforms then Err(UnknownPlatform(args.platform))
    else
      var (tgtW, tgtH) := Platforms[args.platform];
      match ResolveBin(Suffix("input" + InputExt(args.mediaUrl)), image, video)
      case None => Err(KindUnresolved)
      case Some(suffix) =>
        match OutputName(suffix, args.filename, args.platform)
        case Err(e) => Err(e)
        case Ok(output) =>
          if IsImage(suffix) then
            match image
            case Decoded(_, w, h) => Ok(ImageJob(output, ImagePlan(w, h, tgtW, tgtH, args.mode, fx, fy)))
            case Undecodable => Err(ImageUndecodable)
          else
            match video
            case Stream(w, h) => Ok(VideoJob(output, VideoFilter(w, h, tgtW, tgtH, args.mode, fx, fy)))
            case NoStream => Err(NoVideoStream)
  }

  /** A URL with an image extension goes straight to the image path: the
      video probe plays no part, and the image is fitted to the platform's
      1080x1920 frame with the clamped focal point. */
  lemma PlanImageUrl(args: Args, format: Option<string>, w: Pos, h: Pos, video: VideoProbe)
    requires args.platform in Platforms
    requires IsImage(InputExt(args.mediaUrl))
    ensures Plan(args, Decoded(format, w, h), video) == Ok(ImageJob(
      BaseName(args.filename) + "_" + args.platform + ".jpg",
      ImagePlan(w, h, 1080, 1920, args.mode, Clamp01(args.focalX), Clamp01(args.focalY))))
  {
    var e := InputExt(args.mediaUrl);
    BinIsNoKind();
    assert ResolveBin(Suffix("input" + e), Decoded(format, w, h), video) == Some(e);
    assert OutputName(e, args.filename, args.platform) == Ok(BaseName(args.filename) + "_" + args.platform + ".jpg");
    PlatformsTarget();
  }

  /** A URL with a video extension goes straight to the video path, whatever
      the image library would make of the file, and ffmpeg gets the filter
      for the platform's frame with the clamped focal point. */
  lemma PlanVideoUrl(args: Args, image: ImageProbe, w: Pos, h: Pos)
    requires args.platform in Platforms
    requires IsVideo(InputExt(args.mediaUrl))
    ensures Plan(args, image, Stream(w, h)) == Ok(VideoJob(
      BaseName(args.filename) + "_" + args.platform + ".mp4",
      VideoFilter(w, h, 1080, 1920, args.mode, Clamp01(args.focalX), Clamp01(args.focalY))))
  {
    var e := InputExt(args.mediaUrl);
    BinIsNoKind();
    assert ResolveBin(Suffix("input" + e), image, Stream(w, h)) == Some(e);
    KindsDisjoint(e);
    assert OutputName(e, args.filename, args.platform) == Ok(BaseName(args.filename) + "_" + args.platform + ".mp4");
    PlatformsTarget();
  }

  /** A URL without a recognisable extension is saved as `.bin`; if the
      image library reports PNG it is renamed `.png` and takes the image
      path. */
  lemma PlanBinPng(args: Args, w: Pos, h: Pos, video: VideoProbe)
    requires args.platform in Platforms
    requires GuessExtFromUrl(args.mediaUrl).None?
    ensures Plan(args, Decoded(Some("PNG"), w, h), video) == Ok(ImageJob(
      BaseName(args.filename) + "_" + args.platform + ".jpg",
      ImagePlan(w, h, 1080, 1920, args.mode, Clamp01(args.focalX), Clamp01(args.focalY))))
  {
    PlatformsTarget();
    ResolveBinPng(w, h, video);
    ExtsRecognised();
  }

  /** A `.bin` download that neither opens as an image nor has a video
      stream is rejected as of undeterminable type. */
  lemma PlanUnresolved(args: Args)
    requires args.platform in Platforms
    requires InputExt(args.mediaUrl) == ".bin"
    ensures Plan(args, Undecodable, NoStream) == Err(KindUnresolved)
  {
  }

  /** A `.bin` download that opens as an image of a format other than
      JPEG, PNG or WebP keeps `.bin`, and main then rejects `.bin` as an
      unknown type. */
  lemma PlanBinOtherFormat(args: Args, format: Option<string>, w: Pos, h: Pos, video: VideoProbe)
    requires args.platform in Platforms
    requires InputExt(args.mediaUrl) == ".bin"
    requires FormatExt(format).None?
    ensures Plan(args, Decoded(format, w, h), video) == Err(UnknownType(".bin"))
  {
    assert ResolveBin(Suffix("input" + ".bin"), Decoded(format, w, h), video) == Some(".bin");
    BinIsNoKind();
    assert OutputName(".bin", args.filename, args.platform) == Err(UnknownType(".bin"));
  }

  /** How main routes a download on a known platform, for every probe
      outcome. With s the input's suffix after the `.bin` step: no s is the
      undeterminable-type error; an s that is neither an image nor a video
      suffix is the unknown-type error naming s; an image suffix takes the
      image path, which fails when the file does not decode; a video suffix
      takes the video path, which fails when ffprobe finds no stream. */
  lemma PlanRoutes(args: Args, image: ImageProbe, video: VideoProbe)
    requires args.platform in Platforms
    ensures var s := ResolveBin(InputExt(args.mediaUrl), image, video);
      var r := Plan(args, image, video);
      var stem := BaseName(args.filename) + "_" + args.platform;
      var fx := Clamp01(args.focalX);
      var fy := Clamp01(args.focalY);
      && (s.None? ==> r == Err(KindUnresolved))
      && (s.Some? && !IsImage(s.value) && !IsVideo(s.value) ==> r == Err(UnknownType(s.value)))
      && (s.Some? && IsImage(s.value) ==>
            r == match image
                 case Decoded(_, w, h) => Ok(ImageJob(stem + ".jpg", ImagePlan(w, h, 1080, 1920, args.mode, fx, fy)))
                 case Undecodable => Err(ImageUndecodable))
      && (s.Some? && IsVideo(s.value) ==>
            r == match video
                 case Stream(w, h) => Ok(VideoJob(stem + ".mp4", VideoFilter(w, h, 1080, 1920, args.mode, fx, fy)))
                 case NoStream => Err(NoVideoStream))
  {
    PlatformsTarget();
    var e := InputExt(args.mediaUrl);
    assert Suffix("input" + e) == e;
    match ResolveBin(e, image, video)
    case None =>
    case Some(x) =>
      var stem := BaseName(args.filename) + "_" + args.platform;
      KindsDisjoint(x);
      if IsImage(x) {
        assert OutputName(x, args.filename, args.platform) == Ok(stem + ".jpg");
      } else if IsVideo(x) {
        assert OutputName(x, args.filename, args.platform) == Ok(stem + ".mp4");
      }
  }

  /** A `.bin` download that opens as a JPEG, PNG or WebP image is renamed
      to that format's extension and takes the image path. */
  lemma PlanBinImage(args: Args, format: Option<string>, w: Pos, h: Pos, video: VideoProbe)
    requires args.platform in Platforms
    requires InputExt(args.mediaUrl) == ".bin"
    requires FormatExt(format).Some?
    ensures Plan(args, Decoded(format, w, h), video) == Ok(ImageJob(
      BaseName(args.filename) + "_" + args.platform + ".jpg",
      ImagePlan(w, h, 1080, 1920, args.mode, Clamp01(args.focalX), Clamp01(args.focalY))))
  {
    PlanRoutes(args, Decoded(format, w, h), video);
  }

  /** A `.bin` download that does not open as an image but has a video
      stream is renamed `.mp4` and takes the video path. */
  lemma PlanBinVideo(args: Args, w: Pos, h: Pos)
    requires args.platform in Platforms
    requires InputExt(args.mediaUrl) == ".bin"
    ensures Plan(args, Undecodable, Stream(w, h)) == Ok(VideoJob(
      BaseName(args.filename) + "_" + args.platform + ".mp4",
      VideoFilter(w, h, 1080, 1920, args.mode, Clamp01(args.focalX), Clamp01(args.focalY))))
  {
    ExtsRecognised();
    PlanRoutes(args, Undecodable, Stream(w, h));
  }

  /** A bare domain URL is saved as `input.com`, which is neither an image
      nor a video suffix, so main rejects it as an unknown type without
      probing the file. */
  lemma PlanDomain(args: Args, image: ImageProbe, video: VideoProbe)
    requires args.platform in Platforms
    requires args.mediaUrl == "https://example.com"
    ensures Plan(args, image, video) == Err(UnknownType(".com"))
  {
    DomainInputExt();
    ComIsNoKind();
    PlanRoutes(args, image, video);
  }

  lemma DomainInputExt()
    ensures InputExt("https://example.com") == ".com"
  {
    GuessExtDomain();
  }

  lemma ComIsNoKind()
    ensures ".com" != ".bin" && !IsImage(".com") && !IsVideo(".com")
  {
    assert Lower(".com") == ".com";
  }

  /** The focal point only matters after clamping: a value outside [0, 1]
      behaves as the nearer end. */
  lemma PlanFocalClamped(args: Args, image: ImageProbe, video: VideoProbe)
    ensures Plan(args, image, video)
      == Plan(args.(focalX := Clamp01(args.focalX), focalY := Clamp01(args.focalY)), image, video)
    ensures args.focalX > 1.0 ==> Plan(args, image, video) == Plan(args.(focalX := 1.0), image, video)
    ensures args.focalX < 0.0 ==> Plan(args, image, video) == Plan(args.(focalX := 0.0), image, video)
  {
    PlanSameClamp(args, args.(focalX := Clamp01(args.focalX), focalY := Clamp01(args.focalY)), image, video);
    if args.focalX > 1.0 {
      PlanSameClamp(args, args.(focalX := 1.0), image, video);
    }
    if args.focalX < 0.0 {
      PlanSameClamp(args, args.(focalX := 0.0), image, video);
    }
  }

  /** Two argument sets that differ only in focal values that clamp alike
      plan the same job. */
  lemma PlanSameClamp(a: Args, b: Args, image: ImageProbe, video: VideoProbe)
    requires a.mediaUrl == b.mediaUrl && a.platform == b.platform && a.mode == b.mode && a.filename == b.filename
    requires Clamp01(a.focalX) == Clamp01(b.focalX) && Clamp01(a.focalY) == Clamp01(b.focalY)
    ensures Plan(a, image, video) == Plan(b, image, video)
  {
  }

  /** A photo URL with a query string, a padded file name and the TikTok
      frame: a 4000x3000 JPEG is cropped around its centre to 1688x3000 at
      (1156, 0) and written as `holiday_tiktok.jpg`. */
  lemma PlanExample(video: VideoProbe)
    ensures Plan(Args("https://example.com/photo.JPG?w=1", "tiktok", Crop, 0.5, 0.5, " holiday "),
                 Decoded(Some("JPEG"), 4000, 3000), video)
      == Ok(ImageJob("holiday_tiktok.jpg", CropResize(1156, 0, 2844, 3000, 1080, 1920)))
  {
    var args := Args("https://example.com/photo.JPG?w=1", "tiktok", Crop, 0.5, 0.5, " holiday ");
    ExampleInputExt();
    ExampleBaseName();
    PlanImageUrl(args, Some("JPEG"), 4000, 3000, video);
    CropBoxExample();
  }

  /** The example URL is saved as `input.jpg`, an image. */
  lemma ExampleInputExt()
    ensures InputExt("https://example.com/photo.JPG?w=1") == ".jpg"
    ensures IsImage(".jpg")
  {
    GuessExtPath();
    ExtsRecognised();
  }

  /** The padded file name strips to `holiday`, giving `holiday_tiktok.jpg`. */
  lemma ExampleBaseName()
    ensures BaseName(" holiday ") + "_" + "tiktok" + ".jpg" == "holiday_tiktok.jpg"
  {
    assert "holiday" + "_" + "tiktok" + ".jpg" == "holiday_tiktok.jpg";
    ExampleStrip();
  }

  lemma ExampleStrip()
    ensures BaseName(" holiday ") == "holiday"
  {
    assert !IsPySpace('h') && !IsPySpace('y');
    assert " holiday " == [' '] + "holiday" + [' '];
    StripOneBlank("holiday");
  }

  /** A name with one blank either side strips back to the name, when the
      name itself neither starts nor ends with whitespace. */
  lemma StripOneBlank(name: string)
    requires name != [] && !IsPySpace(name[0]) && !IsPySpace(name[|name| - 1])
    ensures Strip([' '] + name + [' ']) == name
  {
    var padded := [' '] + name + [' '];
    assert padded[1..] == name + [' '];
    assert StripLeft(padded) == StripLeft(name + [' ']) == name + [' '];
    assert (name + [' '])[..|name|] == name;
    assert StripRight(name + [' ']) == StripRight(name) == name;
  }
}
