# format_media: a verified model

`scripts/format_media.py` reshapes one downloaded image or video for a
social-media platform. The platform fixes a 1080x1920 frame. The program
works in one of two modes:

- **crop** cuts the largest box with the frame's aspect ratio out of the
  source. The box is placed at a focal point, then scaled to the frame.
- **pad** scales the source to fit inside the frame and centres it on a
  black canvas.

Before that, `main` does three things:

- It guesses the file's extension from the URL.
- It reclassifies a file saved as `.bin` by probing it as an image and
  then as a video.
- It picks the image or the video path and names the output
  `{base}_{platform}.jpg` or `{base}_{platform}.mp4`.

This project models that logic in Dafny as pure functions and proves the
properties below.

Modules:

- `Rounding`: Python's `round` on exact reals, which rounds halves to even.
- `Geometry`:
  - `clamp01`;
  - `crop_box_centered`;
  - `pad_box`;
  - the floor-division centring offsets.
- `Decimal`: how an f-string renders a non-negative integer. A template of
  literals and numbers can be read back to its numbers.
- `Transform`: what `format_image` does to the pixels, and the `-vf` string
  that `format_video` hands to ffmpeg.
- `MediaKind`:
  - `guess_ext_from_url`, written as a scanner and checked against the
    regex read literally;
  - `Path.suffix`;
  - `is_image` and `is_video`;
  - the `.bin` reclassification.
- `Dispatch`:
  - `str.strip()` and the base name;
  - the `PLATFORMS` table;
  - the output name;
  - `Plan`, which is `main` from its parsed arguments to the job it runs
    or the error it raises.

The probes of the downloaded file are parameters of the model:

- The image library reports "not decodable", or a format name and a pixel
  size.
- ffprobe reports "no video stream", or the stream's size.

Rounding follows Python's `round`, which sends an exact half to the even
neighbour. A 4000x3000 source cropped to 1080x1920 at the centre has the
exact crop width 1687.5, so the crop is `round(1687.5) = 1688` wide and its
left edge is `round(2312 * 0.5) = 1156`. `Geometry.CropBoxExample` proves
these numbers.

Also, the code targets a single `--platform` per run and does not loop over
several output formats. The model does the same.

A bare domain URL such as `https://example.com` is guessed as `.com`. So
`main` rejects it as an unknown type instead of probing it. That is what the
regex says, and the model keeps it (`MediaKind.GuessExtDomain`,
`Dispatch.PlanDomain`).

## Model

| member | source | states |
|---|---|---|
| Rounding.Round | scripts/format_media.py:103-113 | The rounded value is within 1/2 of its argument, and an exact tie goes to the even neighbour. This is Python's `round`. |
| Geometry.Clamp01 | scripts/format_media.py:54-59 | The result lies in [0, 1]. It equals the argument when the argument is in [0, 1], is 0 below and 1 above. |
| Geometry.CropSize | scripts/format_media.py:97-107 | A source wider than the target (cross-multiplied comparison) keeps its full height. Its width is the rounded `src_h * tgt_w / tgt_h`. Otherwise it keeps its full width, and its height is the rounded `src_w * tgt_h / tgt_w`. The size never exceeds the source. |
| Geometry.FocalOffset | scripts/format_media.py:112-122 | The rounded focal fraction of the slack, clamped, lies in `[0, slack]` for any real focal value. |
| Geometry.FocalOffsetUnclamped | scripts/format_media.py:112-122 | For a focal value in [0, 1] the clamps never fire. The offset is exactly `round(slack * focal)`. |
| Geometry.CropBox | scripts/format_media.py:85-124 | For any real focal point, the box lies inside the source and has non-negative sides. At least one side is the full source side. |
| Geometry.CropBoxSlack | scripts/format_media.py:109-110 | `max(0, src - crop)` never clamps. The slack is the plain difference, and the offsets are its focal offsets. |
| Geometry.CropBoxNearest | scripts/format_media.py:100-107 | The constrained side is the nearest integer to the exact side, ties to even. The other side is the full source side. |
| Geometry.CropBoxFocalInRange | scripts/format_media.py:112-113 | With focal values in [0, 1], left and top are `round(max_left * fx)` and `round(max_top * fy)`. |
| Geometry.CropBoxAnchors | scripts/format_media.py:112-122 | Focal 0 puts the box at (0, 0). Focal 1 puts it at `(max_left, max_top)`. |
| Geometry.CropBoxCentred | scripts/format_media.py:112-113 | Focal (0.5, 0.5) centres the box: twice each offset is within one pixel of the slack. |
| Geometry.CropBoxSameRatio | scripts/format_media.py:97-124 | A source with the target's aspect ratio gives the whole source at (0, 0), whatever the focal point. |
| Geometry.CropBoxExample | scripts/format_media.py:97-124 | 4000x3000 to 1080x1920 at focal (0.5, 0.5) gives left 1156, top 0, size 1688x3000. |
| Geometry.PadBox | scripts/format_media.py:127-139 | The scaled size fits the target and equals it on at least one side. |
| Geometry.PadScale | scripts/format_media.py:136 | `min` picks the height ratio exactly when the source is relatively taller. The limiting side then scales to the target side exactly, and the other side to at most its target side. |
| Geometry.PadBoxAspect | scripts/format_media.py:136-139 | The limiting side equals the target side. The other side is the nearest integer to the source side times the limiting ratio. |
| Geometry.CenterOffset | scripts/format_media.py:162-163 | `(outer - inner) // 2` is the floor of half the room. With `inner <= outer` it is non-negative, the inner box stays inside, and the margins differ by at most one pixel. |
| Geometry.PadLayout | scripts/format_media.py:159-163 | The pasted or padded picture lies inside the target canvas and touches it on at least one side. |
| Geometry.PadLayoutExample | scripts/format_media.py:159-163 | 3000x4000 into 1080x1080 gives 810x1080 at offset (135, 0). |
| Decimal.NatToDecimal | scripts/format_media.py:209 | The rendered number is a non-empty string of digits with no leading zero. |
| Decimal.DecimalRoundTrip | scripts/format_media.py:209 | Reading back the digits of a rendered number gives the number. |
| Decimal.DigitPrefix | scripts/format_media.py:209 | Gives the length of the longest run of digits at the start of a string. |
| Decimal.DigitPrefixOfDigits | scripts/format_media.py:209 | The digit run of a rendered number followed by a non-digit is exactly the rendered number. |
| Decimal.ReadInterleave | scripts/format_media.py:209-214 | An f-string of literals and numbers reads back to exactly its numbers. The condition is that each literal after the first starts with a non-digit, or is the empty last one. |
| Transform.ImagePlan | scripts/format_media.py:151-164 | Crop mode crops a box inside the source, keeping one source side whole, and resizes it to the target. Pad mode pastes the fit size onto a target-sized canvas, inside it, touching one side. |
| Transform.CropFilter | scripts/format_media.py:207-209 | No contract of its own. `Transform.CropFilterReads` states that the string reads back as its six numbers. |
| Transform.PadFilter | scripts/format_media.py:210-214 | No contract of its own. `Transform.PadFilterReads` states that the string reads back as its six numbers. |
| Transform.VideoFilter | scripts/format_media.py:194-214 | No contract of its own. `Transform.VideoFilterMatchesImagePlan` states that it carries the numbers of the image path's operation. |
| Transform.CropFilterReads | scripts/format_media.py:209 | `crop={cw}:{ch}:{left}:{top},scale={tw}:{th}` reads back as those six numbers. |
| Transform.PadFilterReads | scripts/format_media.py:211-214 | `scale={nw}:{nh},pad={tw}:{th}:{x}:{y}:black` reads back as those six numbers. |
| Transform.VideoFilterMatchesImagePlan | scripts/format_media.py:154-214 | The video path's `-vf` string carries the same box, fit size and offsets as the image path's operation: it reads back as them. |
| Transform.VideoFilterExamples | scripts/format_media.py:207-214 | Gives the `-vf` numbers for the 4000x3000 crop example and for the 3000x4000 pad example. |
| MediaKind.LowerChar | scripts/format_media.py:67 | ASCII capitals are shifted to lower case. Every other character is unchanged. |
| MediaKind.Lower | scripts/format_media.py:67 | Lowers character by character and keeps the length. |
| MediaKind.ExtsRecognised | scripts/format_media.py:23-24 | Every listed image extension is an image and every listed video extension is a video. |
| MediaKind.BinIsNoKind | scripts/format_media.py:23-24 | `.bin` is neither an image nor a video extension. |
| MediaKind.IsImage | scripts/format_media.py:77-78 | No contract of its own. `MediaKind.KindsDisjoint` and `MediaKind.ExtsRecognised` state its properties. |
| MediaKind.IsVideo | scripts/format_media.py:81-82 | No contract of its own. `MediaKind.KindsDisjoint` and `MediaKind.ExtsRecognised` state its properties. |
| MediaKind.KindsDisjoint | scripts/format_media.py:77-82 | No suffix is both an image and a video. Both tests ignore the suffix's case. |
| MediaKind.RFind | scripts/format_media.py:273 | Gives the last index of the character, or -1 when it is absent. |
| MediaKind.Suffix | scripts/format_media.py:273 | `Path.suffix` is empty, or a dot followed by at least one character. |
| MediaKind.SuffixAfterStem | scripts/format_media.py:269-273 | A non-empty stem followed by a dot-free extension has exactly that extension as its suffix. |
| MediaKind.AlnumRun | scripts/format_media.py:64 | Gives the maximal run of `[a-zA-Z0-9]` characters at a position. |
| MediaKind.FirstMatch | scripts/format_media.py:64 | Gives the first position where the scanner matches, with no match before it, or None when there is no match at all. |
| MediaKind.GuessExtShape | scripts/format_media.py:62-67 | A guessed extension is a dot followed by 2 to 5 lower-case letters or digits. |
| MediaKind.RegexMatchIsRun | scripts/format_media.py:64 | The URL regex (a dot, a group of 2 to 5 ASCII letters or digits, then a question mark or the end) matches at i with group length k exactly when the scanner matches at i and k is the maximal alphanumeric run there. |
| MediaKind.GuessExtFromUrl | scripts/format_media.py:62-67 | No contract of its own. `MediaKind.GuessExtNone`, `MediaKind.GuessExtLeftmost` and `MediaKind.GuessExtShape` state it against the regex. |
| MediaKind.GuessExtNone | scripts/format_media.py:62-66 | The guess is None exactly when the regex matches nowhere. |
| MediaKind.GuessExtLeftmost | scripts/format_media.py:62-67 | A found extension is `.` plus the lower-cased group of the leftmost regex match. That match admits a single group length. |
| MediaKind.GuessExtDomain | scripts/format_media.py:62-67 | `https://example.com` gives `.com`. |
| MediaKind.GuessExtQuery | scripts/format_media.py:62-67 | `a/clip.MP4?x=1` gives `.mp4`. |
| MediaKind.GuessExtPath | scripts/format_media.py:62-67 | `https://example.com/photo.JPG?w=1` skips the host's dot and gives `.jpg`. |
| MediaKind.FormatExt | scripts/format_media.py:276-289 | Format jpeg or jpg gives `.jpg`, png gives `.png`, and webp gives `.webp`, compared after lower-casing. Each of these is an image extension. Every other format name, and a missing one, gives None. |
| MediaKind.ResolveBin | scripts/format_media.py:273-298 | A suffix other than `.bin` is left alone. Resolution fails exactly when the suffix is `.bin`, the image probe fails and there is no video stream. |
| MediaKind.ResolveBinOutcomes | scripts/format_media.py:273-298 | For a `.bin` file:<br>- a decodable image is renamed by its format, or keeps `.bin` exactly when the format is not recognised;<br>- the video probe is never consulted for a decodable image;<br>- an undecodable file with a video stream becomes `.mp4`;<br>- any resolved suffix is `.bin`, an image or a video. |
| MediaKind.ResolveBinPng | scripts/format_media.py:282-285 | A `.bin` file reported as `PNG` becomes `.png`. |
| Dispatch.StripLeft | scripts/format_media.py:300 | Removes exactly the leading Python whitespace. |
| Dispatch.StripRight | scripts/format_media.py:300 | Removes exactly the trailing Python whitespace. |
| Dispatch.Strip | scripts/format_media.py:300 | No contract of its own. `Dispatch.StripShape`, `Dispatch.StripEmpty` and `Dispatch.StripIdempotent` state it. |
| Dispatch.StripShape | scripts/format_media.py:300 | `strip()` keeps a slice with only whitespace outside it, and neither end of the slice is whitespace. The result is empty exactly when the input is all whitespace. |
| Dispatch.StripEmpty | scripts/format_media.py:300 | `strip()` gives the empty string exactly when every character is whitespace. That is the case where `or "output"` applies. |
| Dispatch.StripOneBlank | scripts/format_media.py:300 | A name surrounded by one blank on each side strips back to the name, provided the name neither starts nor ends with whitespace. |
| Dispatch.StripIdempotent | scripts/format_media.py:300 | Stripping twice equals stripping once. |
| Dispatch.BaseName | scripts/format_media.py:300 | The base is never empty. It is the stripped file name, or `output` when that is empty. |
| Dispatch.PlatformsTarget | scripts/format_media.py:15-21 | The `PLATFORMS` table is the constant `Dispatch.Platforms`. Every platform maps to 1080x1920, and no platform name contains a dot. |
| Dispatch.KindOf | scripts/format_media.py:302-312 | The image path applies exactly to image suffixes and the video path exactly to video suffixes. Neither applies otherwise. |
| Dispatch.OutputExt | scripts/format_media.py:303-309 | The written extension is a well-formed extension. |
| Dispatch.OutputName | scripts/format_media.py:300-314 | Naming fails exactly when the suffix is neither an image nor a video, and the error names the suffix. |
| Dispatch.OutputNameKind | scripts/format_media.py:300-309 | The output name starts with `{base}_{platform}`. Its own suffix is `.jpg` for an image and `.mp4` for a video, so the output is of the input's kind. |
| Dispatch.InputExt | scripts/format_media.py:264-269 | The download is saved as `input` plus the guessed extension, or plus `.bin`. Its suffix is exactly that extension. |
| Dispatch.Plan | scripts/format_media.py:252-314 | An unknown platform is rejected. A job's output name is the output name of the resolved suffix. An image job needs a decodable image and a video job a video stream. `Dispatch.PlanRoutes` states the full routing. |
| Dispatch.PlanRoutes | scripts/format_media.py:252-314 | On a known platform, with s the suffix after the `.bin` step: no s gives the "type cannot be determined" error. An s that is neither an image nor a video suffix gives the unknown-type error naming s. An image suffix gives the image job (`{base}_{platform}.jpg`, the 1080x1920 operation with the clamped focal point) when the file decodes, and the undecodable-image error when it does not. A video suffix gives the video job (`.mp4`, the `-vf` string) when there is a video stream, and the no-stream error when there is not. |
| Dispatch.PlanBinImage | scripts/format_media.py:273-306 | A `.bin` file that opens as JPEG, PNG or WebP is renamed to an image suffix and takes the image path. |
| Dispatch.PlanBinVideo | scripts/format_media.py:290-312 | A `.bin` file that does not open as an image but has a video stream is renamed `.mp4` and takes the video path. |
| MediaKind.FormatExtNames | scripts/format_media.py:277-289 | `JPEG` and `jpg` rename to `.jpg`, `WEBP` to `.webp`. `GIF` and a missing format keep `.bin`. |
| Dispatch.PlanDomain | scripts/format_media.py:264-314 | `https://example.com` is saved as `.com`, and main rejects it as an unknown type, whatever the probes say. |
| Dispatch.PlanImageUrl | scripts/format_media.py:264-306 | A URL with an image extension takes the image path without probing for video. It is fitted to 1080x1920 with the clamped focal point and written as `.jpg`. |
| Dispatch.PlanVideoUrl | scripts/format_media.py:264-312 | A URL with a video extension takes the video path whatever the image probe says. It gets the `-vf` for 1080x1920 with the clamped focal point and is written as `.mp4`. |
| Dispatch.PlanBinPng | scripts/format_media.py:264-306 | A URL without an extension is saved as `.bin`. A PNG probe then takes it to the image path. |
| Dispatch.PlanUnresolved | scripts/format_media.py:290-298 | A `.bin` file that fails both probes gives the "type cannot be determined" error. |
| Dispatch.PlanBinOtherFormat | scripts/format_media.py:273-314 | A `.bin` image of an unrecognised format keeps `.bin`, and main rejects it as an unknown type. |
| Dispatch.PlanFocalClamped | scripts/format_media.py:252-253 | Only the clamped focal point matters. A value above 1 acts as 1, and a value below 0 acts as 0. |
| Dispatch.PlanSameClamp | scripts/format_media.py:252-253 | Two argument sets that differ only in focal values that clamp alike give the same plan. |
| Dispatch.PlanExample | scripts/format_media.py:252-306 | `https://example.com/photo.JPG?w=1`, file name ` holiday `, tiktok, crop, centre, on a 4000x3000 JPEG gives `holiday_tiktok.jpg`. That job crops (1156, 0)-(2844, 3000) and resizes to 1080x1920. |
| Dispatch.ExampleInputExt | scripts/format_media.py:264-269 | The example URL is saved as `input.jpg`, which is an image. |
| Dispatch.ExampleBaseName | scripts/format_media.py:300-303 | ` holiday ` strips to `holiday`, which gives `holiday_tiktok.jpg`. |
| Dispatch.ExampleStrip | scripts/format_media.py:300 | The base name of ` holiday ` is `holiday`. |

## Left out

- `download` (network I/O through urllib) is not modelled. The downloaded bytes appear only through the probe results.
- `run` and `run_capture` are not modelled, and neither are their error messages. They run ffmpeg and ffprobe as subprocesses.
- `ffprobe_dims` is left out: its JSON parsing of tool output is not modelled. A probe is an abstract result, either no stream or a stream with a positive size.
- The PIL pixel work is left out: `convert`, the LANCZOS `crop`/`resize`, `paste`, and `save` at quality 92. `Transform.ImagePlan` records the rectangles and sizes passed to it.
- The fixed ffmpeg codec and bitrate options are left out. They are a constant list with no logic.
- argparse is left out: its parsing, its `choices` checks, and `float()` on the focal strings. The arguments arrive parsed, with the focal values as reals. So a `nan` focal string is not modelled: `clamp01` passes NaN through, and in crop mode `round(max_left * focal_x)` then raises ValueError. An unknown platform is kept as an error, which argparse would raise.
- Directory creation, the file renames and the `print` of the written path are left out. A rename becomes "the current suffix changes". The output name is modelled without its `out/` directory.
- The errors inside the image branch are not separated. The source catches any exception raised in the whole `try` block around `Image.open`, including one from a rename, then tries ffprobe. The model treats a decodable image as renamed.
- Geometry.CropBox: ratios are exact reals, not IEEE doubles. The proofs describe the intended arithmetic, not bit-exact float rounding in `src_w / src_h`, `crop_h * tgt_ratio` or `max_left * focal_x`.
- Geometry.PadBox: ratios are exact reals, not IEEE doubles. At an exact tie between the two fit ratios, the model picks the same branch as Python's `min`, but unlike floats it cannot be off by one ulp.
- Dimensions are positive integers. A zero-size image or stream is not modelled; the source would divide by zero.
- MediaKind.Lower: only ASCII letters are lower-cased. Non-ASCII case mapping in `str.lower()` is not modelled.
- MediaKind.GuessExtFromUrl: `$` is read as the end of the string. Python's `$` also matches just before a final newline, and that case is not modelled.
- The process exit codes, and the message written to stderr, are not modelled.
