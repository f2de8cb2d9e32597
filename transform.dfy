/** The per-format transforms of format_image and format_video: the pixel
    operations the image path asks of the image library, and the `-vf`
    filter string the video path hands to ffmpeg. */
module Transform {
  import opened Geometry
  import opened Decimal
  import opened Wrappers

  /** The `--mode` choice: crop to fill the target, or pad to fit in it. */
  datatype Mode = Crop | Pad

  /** What format_image does to the decoded picture. */
  datatype ImageOp =
    | CropResize(left: int, top: int, right: int, bottom: int, outW: int, outH: int)
      // img.crop((left, top, right, bottom)).resize((outW, outH))
    | ResizePaste(newW: int, newH: int, canvasW: int, canvasH: int, x: int, y: int)
      // img.resize((newW, newH)) pasted at (x, y) on a black canvasW x canvasH canvas

  /** format_image: crop mode crops the focal box and resizes it to the
      target; any other mode resizes to the fit box and pastes it, centred,
      on a black canvas of the target size. */
  function ImagePlan(srcW: Pos, srcH: Pos, tgtW: Pos, tgtH: Pos, mode: Mode, focalX: real, focalY: real): (op: ImageOp)
    ensures op.CropResize? <==> mode == Crop
    ensures op.CropResize? ==>
      && 0 <= op.left <= op.right <= srcW && 0 <= op.top <= op.bottom <= srcH
      && (op.right - op.left == srcW || op.bottom - op.top == srcH)
      && op.outW == tgtW && op.outH == tgtH
    ensures op.ResizePaste? ==>
      && op.canvasW == tgtW && op.canvasH == tgtH
      && 0 <= op.x && op.x + op.newW <= tgtW && 0 <= op.y && op.y + op.newH <= tgtH
      && (op.newW == tgtW || op.newH == tgtH)
  {
    if mode == Crop then
      var b := CropBox(srcW, srcH, tgtW, tgtH, focalX, focalY);
      CropResize(b.left, b.top, b.left + b.width, b.top + b.height, tgtW, tgtH)
    else
      var l := PadLayout(srcW, srcH, tgtW, tgtH);
      ResizePaste(l.newW, l.newH, tgtW, tgtH, l.x, l.y)
  }

  /** The literal text around the numbers of the two filter strings. */
  const CropPieces: seq<string> := ["crop=", ":", ":", ":", ",scale=", ":", ""]
  const PadPieces: seq<string> := ["scale=", ":", ",pad=", ":", ":", ":", ":black"]

  /** f"crop={cw}:{ch}:{left}:{top},scale={target_w}:{target_h}" */
  function CropFilter(b: Box, tgtW: nat, tgtH: nat): string
    requires b.left >= 0 && b.top >= 0 && b.width >= 0 && b.height >= 0
  {
    Interleave(CropPieces, [b.width, b.height, b.left, b.top, tgtW, tgtH])
  }

  /** f"scale={new_w}:{new_h},pad={target_w}:{target_h}:{pad_x}:{pad_y}:black" */
  function PadFilter(l: Layout, tgtW: nat, tgtH: nat): string
    requires l.newW >= 0 && l.newH >= 0 && l.x >= 0 && l.y >= 0
  {
    Interleave(PadPieces, [l.newW, l.newH, tgtW, tgtH, l.x, l.y])
  }

  /** format_video's `-vf` argument. */
  function VideoFilter(srcW: Pos, srcH: Pos, tgtW: Pos, tgtH: Pos, mode: Mode, focalX: real, focalY: real): string {
    if mode == Crop then CropFilter(CropBox(srcW, srcH, tgtW, tgtH, focalX, focalY), tgtW, tgtH)
    else PadFilter(PadLayout(srcW, srcH, tgtW, tgtH), tgtW, tgtH)
  }

  lemma PiecesSeparated()
    ensures Separated(CropPieces) && Separated(PadPieces)
  {
    assert forall j :: 1 <= j < |CropPieces| ==>
      (|CropPieces[j]| > 0 && !IsDigit(CropPieces[j][0])) || (j == |CropPieces| - 1 && CropPieces[j] == []);
  }

  /** Both paths use the same numbers: in crop mode the image is cut to the
      crop box and the `-vf` string reads back as that box's size, its
      position and the target size; in pad mode the image is resized to the
      fit size and pasted at the centring offsets, and the `-vf` string reads
      back as the fit size, the target size and those offsets. */
  lemma VideoFilterMatchesImagePlan(srcW: Pos, srcH: Pos, tgtW: Pos, tgtH: Pos, mode: Mode, focalX: real, focalY: real)
    ensures mode == Crop ==>
      var b := CropBox(srcW, srcH, tgtW, tgtH, focalX, focalY);
      && ImagePlan(srcW, srcH, tgtW, tgtH, mode, focalX, focalY)
         == CropResize(b.left, b.top, b.left + b.width, b.top + b.height, tgtW, tgtH)
      && ReadTemplate(CropPieces, VideoFilter(srcW, srcH, tgtW, tgtH, mode, focalX, focalY))
         == Some([b.width, b.height, b.left, b.top, tgtW, tgtH])
    ensures mode == Pad ==>
      var l := PadLayout(srcW, srcH, tgtW, tgtH);
      && ImagePlan(srcW, srcH, tgtW, tgtH, mode, focalX, focalY) == ResizePaste(l.newW, l.newH, tgtW, tgtH, l.x, l.y)
      && ReadTemplate(PadPieces, VideoFilter(srcW, srcH, tgtW, tgtH, mode, focalX, focalY))
         == Some([l.newW, l.newH, tgtW, tgtH, l.x, l.y])
  {
    if mode == Crop {
      CropFilterReads(CropBox(srcW, srcH, tgtW, tgtH, focalX, focalY), tgtW, tgtH);
    } else {
      PadFilterReads(PadLayout(srcW, srcH, tgtW, tgtH), tgtW, tgtH);
    }
  }

  /** The crop filter string reads back as its six numbers. */
  lemma CropFilterReads(b: Box, tgtW: nat, tgtH: nat)
    requires b.left >= 0 && b.top >= 0 && b.width >= 0 && b.height >= 0
    ensures ReadTemplate(CropPieces, CropFilter(b, tgtW, tgtH)) == Some([b.width, b.height, b.left, b.top, tgtW, tgtH])
  {
    PiecesSeparated();
    ReadInterleave(CropPieces, [b.width, b.height, b.left, b.top, tgtW, tgtH]);
  }

  /** The pad filter string reads back as its six numbers. */
  lemma PadFilterReads(l: Layout, tgtW: nat, tgtH: nat)
    requires l.newW >= 0 && l.newH >= 0 && l.x >= 0 && l.y >= 0
    ensures ReadTemplate(PadPieces, PadFilter(l, tgtW, tgtH)) == Some([l.newW, l.newH, tgtW, tgtH, l.x, l.y])
  {
    PiecesSeparated();
    ReadInterleave(PadPieces, [l.newW, l.newH, tgtW, tgtH, l.x, l.y]);
  }

  /** The two examples as ffmpeg sees them: 4000x3000 cropped to 1080x1920
      at the centre gives `crop=1688:3000:1156:0,scale=1080:1920`, and
      3000x4000 padded into 1080x1080 gives
      `scale=810:1080,pad=1080:1080:135:0:black` (stated as the numbers the
      strings read back as). */
  lemma VideoFilterExamples(focalX: real, focalY: real)
    ensures ReadTemplate(CropPieces, VideoFilter(4000, 3000, 1080, 1920, Crop, 0.5, 0.5))
      == Some([1688, 3000, 1156, 0, 1080, 1920])
    ensures ReadTemplate(PadPieces, VideoFilter(3000, 4000, 1080, 1080, Pad, focalX, focalY))
      == Some([810, 1080, 1080, 1080, 135, 0])
  {
    CropBoxExample();
    PadLayoutExample();
    VideoFilterMatchesImagePlan(4000, 3000, 1080, 1920, Crop, 0.5, 0.5);
    VideoFilterMatchesImagePlan(3000, 4000, 1080, 1080, Pad, focalX, focalY);
  }
}
