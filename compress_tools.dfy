/** The compression tool: `_resolve_compress_format` and `batch_compress`. */
module Compress {
  import opened Wrappers
  import opened Text
  import opened Imaging
  import opened Config
  import opened FileUtils
  import opened Batch

  /** The formats the automatic choice can settle on. */
  predicate KnownFormat(f: string) {
    f == "JPG" || f == "PNG" || f == "WEBP"
  }

  /** `_resolve_compress_format(choice, img_format, path)`, with `img_format`
      given as the format PIL reports ("" for `None`). An explicit choice wins;
      otherwise the image's own format, read case-insensitively; otherwise the
      file extension, read case-insensitively; otherwise PNG. */
  function ResolveCompressFormat(choice: string, imgFormat: string, path: string): (r: string)
    ensures choice != "" && choice != COMPRESS_FORMAT_AUTO ==> r == choice
    ensures choice == "" || choice == COMPRESS_FORMAT_AUTO ==> KnownFormat(r)
    ensures (choice == "" || choice == COMPRESS_FORMAT_AUTO) && Upper(imgFormat) == "JPEG" ==> r == "JPG"
    ensures (choice == "" || choice == COMPRESS_FORMAT_AUTO) && KnownFormat(Upper(imgFormat)) ==>
      r == Upper(imgFormat)
  {
    if choice != "" && choice != COMPRESS_FORMAT_AUTO then choice
    else
      var fmt := Upper(imgFormat);
      if fmt == "JPEG" then "JPG"
      else if KnownFormat(fmt) then fmt
      else
        ByExtension(LowerExt(path))
  }

  /** The format a lower-cased extension selects. */
  function ByExtension(ext: string): string {
    if ext == ".jpg" || ext == ".jpeg" then "JPG"
    else if ext == ".png" then "PNG"
    else if ext == ".webp" then "WEBP"
    else "PNG"
  }

  lemma UpperOfLower(s: string)
    ensures Upper(Lower(s)) == Upper(s)
  {
    assert forall i :: 0 <= i < |s| ==> UpperChar(LowerChar(s[i])) == UpperChar(s[i]);
  }

  /** The image format is compared without regard to case. */
  lemma FormatCaseInsensitive(choice: string, imgFormat: string, path: string)
    ensures ResolveCompressFormat(choice, Upper(imgFormat), path) == ResolveCompressFormat(choice, imgFormat, path)
    ensures ResolveCompressFormat(choice, Lower(imgFormat), path) == ResolveCompressFormat(choice, imgFormat, path)
  {
    UpperIdempotent(imgFormat);
    UpperOfLower(imgFormat);
  }

  /** With no usable image format, the extension decides: `.jpg` and `.jpeg`
      give JPG, `.png` PNG, `.webp` WEBP, and any other extension (or none) PNG. */
  lemma ExtensionFallback(choice: string, imgFormat: string, path: string)
    requires choice == "" || choice == COMPRESS_FORMAT_AUTO
    requires Upper(imgFormat) != "JPEG" && !KnownFormat(Upper(imgFormat))
    ensures var r := ResolveCompressFormat(choice, imgFormat, path); var ext := LowerExt(path);
      (r == "JPG" <==> ext == ".jpg" || ext == ".jpeg") &&
      (r == "WEBP" <==> ext == ".webp") &&
      (r == "PNG" <==> ext != ".jpg" && ext != ".jpeg" && ext != ".webp")
  {
  }

  /** The extension is read without regard to the case of the path. */
  lemma ExtensionCaseInsensitive(choice: string, imgFormat: string, path: string)
    ensures ResolveCompressFormat(choice, imgFormat, Upper(path)) == ResolveCompressFormat(choice, imgFormat, path)
  {
    LowerExtUpper(path);
  }

  /** An upper-case `.JPEG` extension selects JPG. */
  lemma ExtensionUpperCase()
    ensures ResolveCompressFormat("", "", "in/photo.JPEG") == "JPG"
  {
    var p := "in/photo.JPEG";
    RFindAt(p, '/', 2);
    RFindAt(p, '.', 8);
    assert p[3] != '.';
    assert p[..8] == "in/photo" && p[8..] == ".JPEG";
    assert SplitExt(p) == ("in/photo", ".JPEG");
    assert Lower(".JPEG") == ".jpeg";
  }

  /** Only the last extension counts, and an image format the encoder does not
      know is passed over. */
  lemma ExtensionLast()
    ensures ResolveCompressFormat(COMPRESS_FORMAT_AUTO, "GIF", "a.tar.webp") == "WEBP"
  {
    var p := "a.tar.webp";
    RFindAt(p, '/', -1);
    RFindAt(p, '.', 5);
    assert p[0] != '.';
    assert p[..5] == "a.tar" && p[5..] == ".webp";
    assert SplitExt(p) == ("a.tar", ".webp");
    assert Lower(".webp") == ".webp";
    assert Upper("GIF") == "GIF";
  }

  /** A leading dot of the file name starts no extension, so the default applies. */
  lemma ExtensionHiddenFile()
    ensures ResolveCompressFormat("", "", "dir/.png") == "PNG"
  {
    var p := "dir/.png";
    RFindAt(p, '/', 3);
    RFindAt(p, '.', 4);
    assert SplitExt(p) == ("dir/.png", "");
    assert Lower("") == "";
  }

  /** An extension the tool does not know gives PNG. */
  lemma ExtensionUnknown()
    ensures ResolveCompressFormat("", "", "x.gif") == "PNG"
  {
    var p := "x.gif";
    RFindAt(p, '/', -1);
    RFindAt(p, '.', 1);
    assert p[0] != '.';
    assert p[..1] == "x" && p[1..] == ".gif";
    assert SplitExt(p) == ("x", ".gif");
    assert Lower(".gif") == ".gif";
  }

  /** Every entry of the format menu resolves to a format the encoder knows. */
  lemma MenuResolves(k: nat, imgFormat: string, path: string)
    requires k < |COMPRESS_FORMAT_CHOICES|
    ensures KnownFormat(ResolveCompressFormat(COMPRESS_FORMAT_CHOICES[k], imgFormat, path))
  {
  }

  /** The name of a compressed output: `f"{base}_compressed.{ext}"`. */
  function CompressedName(base: string, fmt: string): string {
    base + "_compressed." + ExtOf(fmt)
  }

  /** One pass of the loop body of `batch_compress` on the input at `p`. */
  function CompressItem(world: World, format: string, quality: int, bg: Rgb, p: string): (r: Outcome)
    ensures r.Failed? ==> r.base == Stem(p) && "compress/export failed: " <= r.reason
    ensures r.Produced? ==>
      (Open(world, p).Ok? &&
       r.entry.0 == CompressedName(Stem(p), ResolveCompressFormat(format, Open(world, p).value.format, p)))
  {
    var base := Stem(p);
    var fail := "compress/export failed: ";
    match Open(world, p)
    case Err(e) => Failed(base, fail + e)
    case Ok(img) =>
      var fmt := ResolveCompressFormat(format, img.format, p);
      match SaveImageBytes(world, img, fmt, quality, bg)
      case Err(e) => Failed(base, fail + e)
      case Ok(bytes) => Produced((CompressedName(base, fmt), bytes))
  }

  /** An output is the image encoded in the resolved format, onto the chosen
      background when it is flattened to JPEG. */
  lemma CompressItemEncodes(world: World, format: string, quality: int, bg: Rgb, p: string)
    requires CompressItem(world, format, quality, bg, p).Produced?
    ensures var img := Open(world, p).value;
      var plan := PlanSave(img, ResolveCompressFormat(format, img.format, p), quality, bg);
      world.encode(plan) == Ok(CompressItem(world, format, quality, bg, p).entry.1)
  {
  }

  /** `batch_compress(input_files, out_format, quality, jpg_bg)`. */
  method BatchCompress(world: World, files: Value, format: string, quality: int, jpgBg: ColorArg)
    returns (r: BatchResult)
    ensures var paths := Kept(Candidates(files), world.existing);
      var bg := PickColor(jpgBg, WHITE);
      r == if paths == [] then NO_INPUT else Summary(Outcomes(paths, p => CompressItem(world, format, quality, bg, p)))
  {
    var paths := NormalizeFiles(files, world.existing);
    if paths == [] {
      return NO_INPUT;
    }
    var bg := PickColor(jpgBg, WHITE);
    r := RunBatch(paths, p => CompressItem(world, format, quality, bg, p));
  }
}
