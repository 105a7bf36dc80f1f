/** The resize tool: `_resize_one`, which decides the size and layout of one
    resized image, and `batch_resize`. */
module Resize {
  import opened Wrappers
  import opened Text
  import opened Imaging
  import opened FileUtils
  import opened Batch

  /** `_resize_one(img, w, h, mode, pad_color, force_exact)`. The image is first
      converted to RGBA. "Fit" shrinks it into the box (and pads it to exactly
      the box when `force_exact` is set), "Crop" scales and crops it to exactly
      the box, "Pad" scales it to fit and pastes it centred on a box-sized
      canvas filled with `pad`; any other mode returns the converted image as it is. `None`
      stands for the error PIL raises when a box side is below one pixel. */
  function ResizeOne(img: Img, w: int, h: int, mode: string, pad: Rgb, force: bool): (r: Option<Canvas>)
    ensures mode != "Fit" && mode != "Crop" && mode != "Pad" ==> r == Some(Plain(Convert(img, "RGBA")))
    ensures (mode == "Fit" || mode == "Crop" || mode == "Pad") ==> (r.Some? <==> w >= 1 && h >= 1)
    ensures r.Some? ==> r.value.image.mode == "RGBA"
    ensures r.Some? && mode == "Fit" && !force ==>
      r.value.image.width <= w && r.value.image.height <= h &&
      r.value.image.width <= img.width && r.value.image.height <= img.height
    ensures r.Some? && (mode == "Crop" || mode == "Pad" || (mode == "Fit" && force)) ==>
      r.value.image.width == w && r.value.image.height == h
    ensures r.Some? && mode == "Pad" ==>
      r.value.content.width <= w && r.value.content.height <= h &&
      (r.value.content.width == w || r.value.content.height == h) &&
      r.value.x == (w - r.value.content.width) / 2 && r.value.y == (h - r.value.content.height) / 2
    ensures r.Some? && mode == "Pad" ==> r.value.image.ground == Some(pad)
    ensures r.Some? && mode != "Pad" && !(mode == "Fit" && force) ==> r.value.image.ground == img.ground
  {
    var rgba := Convert(img, "RGBA");
    if mode == "Fit" then
      if w < 1 || h < 1 then None
      else
        var t := Thumbnail(rgba, w, h);
        Some(if force then PadToTarget(t, w, h, pad) else Plain(t))
    else if mode == "Crop" then
      if w < 1 || h < 1 then None else Some(Plain(FitExact(rgba, w, h)))
    else if mode == "Pad" then
      if w < 1 || h < 1 then None else Some(Centred(Contain(rgba, w, h), w, h, pad))
    else
      Some(Plain(rgba))
  }

  /** A padded result lies wholly inside its canvas. */
  lemma PadInside(img: Img, w: Dim, h: Dim, pad: Rgb)
    ensures var r := ResizeOne(img, w, h, "Pad", pad, false).value;
      0 <= r.x && r.x + r.content.width <= w && 0 <= r.y && r.y + r.content.height <= h
  {
    CentredInside(Contain(Convert(img, "RGBA"), w, h), w, h, pad);
  }

  /** Padding a fitted image to the box keeps the fitted image at the centre,
      and the canvas shows the pad colour unless the thumbnail already fills
      the box. */
  lemma FitExactCentres(img: Img, w: Dim, h: Dim, pad: Rgb)
    ensures var t := Thumbnail(Convert(img, "RGBA"), w, h);
      ResizeOne(img, w, h, "Fit", pad, true) == Some(PadToTarget(t, w, h, pad))
    ensures var r := ResizeOne(img, w, h, "Fit", pad, true).value;
      0 <= r.x && r.x + r.content.width <= w && 0 <= r.y && r.y + r.content.height <= h
    ensures var t := Thumbnail(Convert(img, "RGBA"), w, h);
      ResizeOne(img, w, h, "Fit", pad, true).value.image.ground ==
        (if t.width == w && t.height == h then img.ground else Some(pad))
  {
    var t := Thumbnail(Convert(img, "RGBA"), w, h);
    PadCentres(t, w, h, pad);
  }

  /** The name of a resized output: `f"{base}_{w}x{h}_{mode.lower()}.{ext}"`. */
  function ResizedName(base: string, w: int, h: int, mode: string, fmt: string): string {
    base + "_" + IntToDecimal(w) + "x" + IntToDecimal(h) + "_" + Lower(mode) + "." + ExtOf(fmt)
  }

  /** The settings of one `batch_resize` call; `pad` is `_pick_color(pad_color)`
      and `sizeError` the text of the error PIL raises for a box side below one. */
  datatype ResizeJob = ResizeJob(w: int, h: int, mode: string, format: string, quality: int,
                                 pad: Rgb, force: bool, sizeError: string)

  /** One pass of the loop body of `batch_resize` on the input at `p`. */
  function ResizeItem(world: World, job: ResizeJob, p: string): (r: Outcome)
    ensures r.Failed? ==> r.base == Stem(p) && "resize/export failed: " <= r.reason
    ensures r.Produced? ==> r.entry.0 == ResizedName(Stem(p), job.w, job.h, job.mode, job.format)
  {
    var base := Stem(p);
    var fail := "resize/export failed: ";
    match Open(world, p)
    case Err(e) => Failed(base, fail + e)
    case Ok(img) =>
      match ResizeOne(img, job.w, job.h, job.mode, job.pad, job.force)
      case None => Failed(base, fail + job.sizeError)
      case Some(out) =>
        match SaveImageBytes(world, out.image, job.format, job.quality, job.pad)
        case Err(e) => Failed(base, fail + e)
        case Ok(bytes) => Produced((ResizedName(base, job.w, job.h, job.mode, job.format), bytes))
  }

  /** A "Pad" output is saved on the pad colour whatever the output format:
      JPEG flattens onto the same colour, WEBP and PNG keep the padded canvas. */
  lemma PadColourSaved(img: Img, job: ResizeJob)
    requires job.mode == "Pad" && job.w >= 1 && job.h >= 1
    ensures var out := ResizeOne(img, job.w, job.h, job.mode, job.pad, job.force).value;
      PlanSave(out.image, Upper(job.format), job.quality, job.pad).image.ground == Some(job.pad)
  {
  }

  /** The job `batch_resize` runs for its arguments. */
  function ResizeJobFor(w: int, h: int, mode: string, format: string, quality: int,
                        padColor: ColorArg, force: bool, sizeError: string): (r: ResizeJob)
    ensures r.pad == PickColor(padColor, WHITE)
  {
    ResizeJob(w, h, mode, format, quality, PickColor(padColor, WHITE), force, sizeError)
  }

  /** `batch_resize(input_files, target_w, target_h, mode, out_format, quality,
      pad_color, force_exact)`. */
  method BatchResize(world: World, files: Value, w: int, h: int, mode: string, format: string,
                     quality: int, padColor: ColorArg, force: bool, sizeError: string)
    returns (r: BatchResult)
    ensures var paths := Kept(Candidates(files), world.existing);
      var job := ResizeJobFor(w, h, mode, format, quality, padColor, force, sizeError);
      r == if paths == [] then NO_INPUT else Summary(Outcomes(paths, p => ResizeItem(world, job, p)))
  {
    var paths := NormalizeFiles(files, world.existing);
    if paths == [] {
      return NO_INPUT;
    }
    var job := ResizeJobFor(w, h, mode, format, quality, padColor, force, sizeError);
    r := RunBatch(paths, p => ResizeItem(world, job, p));
  }

  /** An input that does not open yields exactly the line
      `[base] resize/export failed: <error>`. */
  lemma ResizeItemUnreadable(world: World, job: ResizeJob, p: string)
    requires Open(world, p).Err?
    ensures Summary([ResizeItem(world, job, p)]) ==
      BatchResult([], None, "[" + Stem(p) + "] " + "resize/export failed: " + Open(world, p).msg)
  {
    var o := ResizeItem(world, job, p);
    assert o == Failed(Stem(p), "resize/export failed: " + Open(world, p).msg);
    SingleInput(o);
    assert LogLine(o.base, o.reason) == "[" + Stem(p) + "] " + "resize/export failed: " + Open(world, p).msg;
  }

  /** Every output of a resize batch is named after one of its inputs. */
  lemma ResizeOutputsNamed(world: World, job: ResizeJob, paths: seq<string>, e: Entry)
    requires e in Successes(Outcomes(paths, p => ResizeItem(world, job, p)))
    ensures exists i :: 0 <= i < |paths| && e.0 == ResizedName(Stem(paths[i]), job.w, job.h, job.mode, job.format)
  {
    var outs := Outcomes(paths, p => ResizeItem(world, job, p));
    SuccessesAreProduced(outs, e);
    var i :| 0 <= i < |outs| && outs[i] == Produced(e);
    assert outs[i] == ResizeItem(world, job, paths[i]);
  }
}
