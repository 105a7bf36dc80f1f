/** The shared helpers of the image tools: turning upload handles into paths,
    `_to_pil`, the encoder decisions of `_save_image_bytes`, the zip archive,
    colour parsing, padding to a target size and the resized editor images. */
module FileUtils {
  import opened Wrappers
  import opened Text
  import opened Imaging

  newtype byte = x: int | 0 <= x < 256
  type Bytes = seq<byte>

  /** A Python value as it reaches the tools from the UI: `None`, a `str`,
      `bytes`, a PIL image (or a numpy array, which `_to_pil` wraps the same
      way), a `dict`, a `list`, or any other object, seen through its `.path`
      attribute (absent or `None` is `None`) and the text `str()` gives for it
      (`None` when `str()` raises). */
  datatype Value =
    | NoneV
    | Str(s: string)
    | Raw(data: Bytes)
    | Picture(img: Img)
    | Dict(entries: map<string, Value>)
    | List(items: seq<Value>)
    | Obj(path: Option<string>, text: Option<string>)

  /** Python truthiness (objects are taken to be truthy). */
  predicate Truthy(v: Value) {
    match v
    case NoneV => false
    case Str(s) => s != ""
    case Raw(d) => d != []
    case Picture(_) => true
    case Dict(m) => m != map[]
    case List(xs) => xs != []
    case Obj(_, _) => true
  }

  /** What the tools can observe of the machine they run on: which paths exist
      (`os.path.exists`) and which are regular files (`os.path.isfile`), file
      contents, PIL's decoder, `convert("L")`, and the encoder behind
      `img.save`. Each failure carries the text of the exception raised. */
  datatype World = World(
    existing: set<string>,
    files: set<string>,
    read: string -> Result<Bytes>,
    decode: Bytes -> Result<Img>,
    luminance: Img -> Luma,
    encode: SavePlan -> Result<Bytes>)

  /** `Image.open(path)`. */
  function Open(w: World, path: string): Result<Img> {
    match w.read(path)
    case Err(e) => Err(e)
    case Ok(b) => w.decode(b)
  }

  // ---------------------------------------------------------------------------
  // Upload handles

  /** `_file_to_path`. A dict is looked at only through a non-empty string under
      "path"; an object's `.path` wins over its `str()`, which is used only if
      that path exists. */
  function FileToPath(f: Value, existing: set<string>): (r: Option<string>)
    ensures f.NoneV? ==> r.None?
    ensures f.Str? ==> r == Some(f.s)
    ensures f.Dict? ==>
      (r.Some? <==> "path" in f.entries && f.entries["path"].Str? && f.entries["path"].s != "")
    ensures f.Dict? && r.Some? ==> r.value == f.entries["path"].s
    ensures f.Obj? && r.Some? ==>
      r == f.path || (f.text == r && r.value in existing)
    ensures f.Obj? && (f.path.None? || f.path == Some("")) ==>
      (r.Some? <==> f.text.Some? && f.text.value in existing)
  {
    match f
    case NoneV => None
    case Str(s) => Some(s)
    case Dict(m) =>
      if "path" in m && m["path"].Str? && m["path"].s != "" then Some(m["path"].s) else None
    case Obj(path, text) =>
      if path.Some? && path.value != "" then path
      else if text.Some? && text.value in existing then text
      else None
    case _ => None
  }

  /** The test `_normalize_files` applies to a resolved path: `p and os.path.exists(p)`. */
  predicate Usable(p: Option<string>, existing: set<string>) {
    p.Some? && p.value != "" && p.value in existing
  }

  /** The handles `_normalize_files` walks through: none for a falsy argument,
      the elements of a list, or the argument itself. */
  function Candidates(files: Value): seq<Value> {
    if !Truthy(files) then [] else if files.List? then files.items else [files]
  }

  /** The usable resolved paths of `items`, in order, duplicates kept. */
  function Kept(items: seq<Value>, existing: set<string>): seq<string> {
    if items == [] then []
    else
      var p := FileToPath(items[|items| - 1], existing);
      Kept(items[..|items| - 1], existing) + (if Usable(p, existing) then [p.value] else [])
  }

  /** `_normalize_files`. */
  method NormalizeFiles(files: Value, existing: set<string>) returns (out: seq<string>)
    ensures out == Kept(Candidates(files), existing)
  {
    if !Truthy(files) {
      return [];
    }
    var items := if files.List? then files.items else [files];
    out := [];
    var i := 0;
    while i < |items|
      invariant 0 <= i <= |items|
      invariant out == Kept(items[..i], existing)
    {
      var p := FileToPath(items[i], existing);
      assert items[..i + 1][..i] == items[..i];
      if p.Some? && p.value != "" && p.value in existing {
        out := out + [p.value];
      }
      i := i + 1;
    }
    assert items[..i] == items;
  }

  /** Filtering distributes over concatenation: the result keeps the input order. */
  lemma {:induction false} KeptConcat(a: seq<Value>, b: seq<Value>, existing: set<string>)
    ensures Kept(a + b, existing) == Kept(a, existing) + Kept(b, existing)
    decreases |b|
  {
    if b == [] {
      assert a + b == a;
    } else {
      var init := b[..|b| - 1];
      KeptConcat(a, init, existing);
      assert (a + b)[..|a + b| - 1] == a + init;
      assert (a + b)[|a + b| - 1] == b[|b| - 1];
      var p := FileToPath(b[|b| - 1], existing);
      var tail := if Usable(p, existing) then [p.value] else [];
      assert Kept(b, existing) == Kept(init, existing) + tail;
      assert Kept(a + b, existing) == Kept(a + init, existing) + tail;
    }
  }

  /** A path is returned exactly when some handle resolves to it and it exists. */
  lemma {:induction false} KeptMembers(items: seq<Value>, existing: set<string>, p: string)
    ensures p in Kept(items, existing) <==>
      exists i :: 0 <= i < |items| && FileToPath(items[i], existing) == Some(p) && p != "" && p in existing
  {
    if items != [] {
      var init := items[..|items| - 1];
      KeptMembers(init, existing, p);
      if p in Kept(items, existing) && p !in Kept(init, existing) {
        assert FileToPath(items[|items| - 1], existing) == Some(p);
      }
      if exists i :: 0 <= i < |items| && FileToPath(items[i], existing) == Some(p) && p != "" && p in existing {
        var i :| 0 <= i < |items| && FileToPath(items[i], existing) == Some(p) && p != "" && p in existing;
        if i < |init| {
          assert init[i] == items[i];
        }
      }
    }
  }

  /** Every returned path is a non-empty existing path, and no more paths come
      out than handles went in. */
  lemma {:induction false} KeptUsable(items: seq<Value>, existing: set<string>)
    ensures |Kept(items, existing)| <= |items|
    ensures forall p :: p in Kept(items, existing) ==> p != "" && p in existing
  {
    if items != [] {
      KeptUsable(items[..|items| - 1], existing);
    }
  }

  /** A falsy argument gives no paths; a single handle is treated as a
      one-element list. */
  lemma NormalizeShapes(files: Value, existing: set<string>)
    ensures !Truthy(files) ==> Kept(Candidates(files), existing) == []
    ensures Truthy(files) && !files.List? ==>
      Kept(Candidates(files), existing) ==
        (if Usable(FileToPath(files, existing), existing) then [FileToPath(files, existing).value] else [])
  {
    if Truthy(files) && !files.List? {
      assert [files][..0] == [];
    }
  }

  // ---------------------------------------------------------------------------
  // _to_pil

  /** `_to_pil(x)`: images pass through, strings are opened as paths, bytes are
      decoded, a dict is replaced by its "image" entry; anything else raises. */
  function ToPil(v: Value, w: World): (r: Result<Img>)
    ensures v.NoneV? ==> r == Err("Empty image")
    ensures v.Picture? ==> r == Ok(v.img)
    ensures v.Dict? ==> (if "image" in v.entries then r == ToPil(v.entries["image"], w) else r.Err?)
    ensures v.List? || v.Obj? ==> r.Err?
  {
    match v
    case NoneV => Err("Empty image")
    case Picture(img) => Ok(img)
    case Str(s) => Open(w, s)
    case Raw(b) => w.decode(b)
    case Dict(m) =>
      if "image" in m then ToPil(m["image"], w) else Err("Unsupported type: <class 'dict'>")
    case List(_) => Err("Unsupported type: <class 'list'>")
    case Obj(_, _) => Err("Unsupported type: <class 'object'>")
  }

  // ---------------------------------------------------------------------------
  // _save_image_bytes

  datatype Encoder = Jpeg | Webp | Png

  /** What `_save_image_bytes` hands to PIL's encoder: which encoder, the image
      after conversion, the quality (JPEG and WEBP only), and the background an
      image with alpha was flattened onto (JPEG only). */
  datatype SavePlan = SavePlan(encoder: Encoder, image: Img, quality: Option<int>, background: Option<Rgb>)

  /** `(fmt or "PNG").upper()`, then JPG/JPEG, WEBP, or PNG for anything else. */
  function EncoderFor(fmt: string): Encoder {
    var f := Upper(if fmt == "" then "PNG" else fmt);
    if f == "JPG" || f == "JPEG" then Jpeg else if f == "WEBP" then Webp else Png
  }

  /** The modes the PNG branch keeps as they are. */
  predicate PngMode(mode: string) {
    mode == "RGBA" || mode == "RGB" || mode == "LA" || mode == "L"
  }

  /** The conversions `_save_image_bytes` applies before encoding. */
  function PlanSave(img: Img, fmt: string, quality: int, bg: Rgb): (r: SavePlan)
    ensures r.encoder == EncoderFor(fmt)
    ensures r.image.width == img.width && r.image.height == img.height
    ensures r.encoder == Jpeg ==>
      r.image.mode == "RGB" && !r.image.transparency && r.quality == Some(quality) &&
      r.background == (if HasAlpha(img) || img.transparency then Some(bg) else None) &&
      r.image.ground == (if HasAlpha(img) || img.transparency then Some(bg) else img.ground)
    ensures r.encoder == Webp ==> r.image == img && r.quality == Some(quality) && r.background.None?
    ensures r.encoder == Png ==>
      PngMode(r.image.mode) && (PngMode(img.mode) ==> r.image == img) &&
      (!PngMode(img.mode) ==> r.image.mode == "RGBA") &&
      r.image.ground == img.ground && r.quality.None? && r.background.None?
  {
    match EncoderFor(fmt)
    case Jpeg =>
      if HasAlpha(img) || img.transparency then SavePlan(Jpeg, Blank("RGB", img.width, img.height, bg), Some(quality), Some(bg))
      else SavePlan(Jpeg, Convert(img, "RGB"), Some(quality), None)
    case Webp => SavePlan(Webp, img, Some(quality), None)
    case Png => SavePlan(Png, if PngMode(img.mode) then img else Convert(img, "RGBA"), None, None)
  }

  /** `_save_image_bytes(img, fmt, quality, bg_color)`: the bytes depend on the
      format name only up to case, a missing name means PNG, and JPG is JPEG. */
  function SaveImageBytes(w: World, img: Img, fmt: string, quality: int, bg: Rgb): (r: Result<Bytes>)
    ensures r == w.encode(PlanSave(img, Upper(fmt), quality, bg))
    ensures fmt == "" ==> r == w.encode(PlanSave(img, "PNG", quality, bg))
    ensures Upper(fmt) == "JPG" ==> r == w.encode(PlanSave(img, "JPEG", quality, bg))
  {
    EncoderForCases(fmt);
    assert EncoderFor("PNG") == Png by { assert Upper("PNG") == "PNG"; }
    assert EncoderFor("JPEG") == Jpeg by { assert Upper("JPEG") == "JPEG"; }
    SameEncoderSamePlan(img, Upper(fmt), fmt, quality, bg);
    assert fmt == "" ==> PlanSave(img, "PNG", quality, bg) == PlanSave(img, fmt, quality, bg) by {
      if fmt == "" { SameEncoderSamePlan(img, "PNG", fmt, quality, bg); }
    }
    assert Upper(fmt) == "JPG" ==> PlanSave(img, "JPEG", quality, bg) == PlanSave(img, fmt, quality, bg) by {
      if Upper(fmt) == "JPG" { SameEncoderSamePlan(img, "JPEG", fmt, quality, bg); }
    }
    w.encode(PlanSave(img, fmt, quality, bg))
  }

  /** The plan depends on the format name only through its encoder. */
  lemma SameEncoderSamePlan(img: Img, f: string, g: string, quality: int, bg: Rgb)
    requires EncoderFor(f) == EncoderFor(g)
    ensures PlanSave(img, f, quality, bg) == PlanSave(img, g, quality, bg)
  {
  }

  lemma UpperIdempotent(s: string)
    ensures Upper(Upper(s)) == Upper(s)
  {
    assert forall i :: 0 <= i < |s| ==> UpperChar(UpperChar(s[i])) == UpperChar(s[i]);
  }

  /** The format name is read case-insensitively, and a missing one means PNG. */
  lemma EncoderForCases(fmt: string)
    ensures EncoderFor(Upper(fmt)) == EncoderFor(fmt)
    ensures EncoderFor("") == Png && EncoderFor("png") == Png
    ensures EncoderFor("jpg") == Jpeg && EncoderFor("Jpeg") == Jpeg && EncoderFor("webp") == Webp
  {
    UpperIdempotent(fmt);
    if fmt != "" {
      assert Upper(fmt) != "";
    }
    assert Upper("PNG") == "PNG";
    assert Upper("png") == "PNG";
    assert Upper("jpg") == "JPG";
    assert Upper("Jpeg") == "JPEG";
    assert Upper("webp") == "WEBP";
  }

  /** `_apply_background(img, bg_color)`: an RGB canvas of the same size filled
      with `bg`, with the image pasted on it at (0, 0), through its alpha
      channel when it has one. */
  function ApplyBackground(img: Img, bg: Rgb): (r: Canvas)
    ensures r.image.width == img.width && r.image.height == img.height
    ensures r.image.mode == "RGB" && !r.image.transparency
    ensures r.image.ground == Some(bg)
    ensures r.x == 0 && r.y == 0
    ensures r.content.mode == (if HasAlpha(img) || img.transparency then "RGBA" else "RGB")
  {
    Canvas(Blank("RGB", img.width, img.height, bg), Convert(img, PasteMode(img)), 0, 0)
  }

  /** The mode an image is pasted in: through an alpha channel when it has one
      or carries a "transparency" entry, as plain RGB otherwise. */
  function PasteMode(img: Img): string {
    if HasAlpha(img) || img.transparency then "RGBA" else "RGB"
  }

  /** `_pad_to_target(img, w, h, pad_color)`: the image itself when it already
      has the target size, otherwise a `(w, h)` RGBA canvas filled with `pad`
      (made opaque) with the image pasted at the centre offset. */
  function PadToTarget(img: Img, w: Dim, h: Dim, pad: Rgb): (r: Canvas)
    ensures r.image.width == w && r.image.height == h
    ensures img.width == w && img.height == h ==> r == Plain(img)
    ensures !(img.width == w && img.height == h) ==>
      r.image.mode == "RGBA" && r.image.ground == Some(pad) &&
      r.content == Convert(img, PasteMode(img))
  {
    if img.width == w && img.height == h then Plain(img)
    else Centred(Convert(img, PasteMode(img)), w, h, pad)
  }

  /** A padded image is pasted at `((w - iw) // 2, (h - ih) // 2)`, and when
      it is no larger than the target it lies wholly inside the canvas. */
  lemma PadCentres(img: Img, w: Dim, h: Dim, pad: Rgb)
    ensures var r := PadToTarget(img, w, h, pad);
      r.x == (w - img.width) / 2 && r.y == (h - img.height) / 2
    ensures var r := PadToTarget(img, w, h, pad);
      img.width <= w && img.height <= h ==>
        0 <= r.x && r.x + img.width <= w && 0 <= r.y && r.y + img.height <= h
  {
    if !(img.width == w && img.height == h) && img.width <= w && img.height <= h {
      CentredInside(Convert(img, PasteMode(img)), w, h, pad);
    }
  }

  // ---------------------------------------------------------------------------
  // Editor images

  /** The path an editor helper returns: the source path, an output file that
      already exists, or a new output file holding the image written there. */
  datatype EditorImage = Source | Cached | Rendered(image: Img)

  /** `_make_zoom_image(src_path, zoom)`, with the cache path (built from an md5
      of the source path and its mtime) given as `out`. */
  function ZoomImage(w: World, src: string, zoom: int, out: string): (r: EditorImage)
    ensures zoom <= 1 ==> r == Source
    ensures zoom > 1 && out in w.files ==> r == Cached
    ensures r.Rendered? ==> w.encode(SavePlan(Png, r.image, None, None)).Ok?
  {
    if zoom <= 1 then Source
    else if out in w.files then Cached
    else
      match Open(w, src)
      case Err(_) => Source
      case Ok(img) =>
        var z := Resized(img, Max(1, img.width * zoom), Max(1, img.height * zoom));
        if w.encode(SavePlan(Png, z, None, None)).Ok? then Rendered(z) else Source
  }

  /** A zoomed image is the source scaled by exactly the zoom factor. */
  lemma ZoomScales(w: World, src: string, zoom: int, out: string)
    requires ZoomImage(w, src, zoom, out).Rendered?
    ensures Open(w, src).Ok?
    ensures var img := Open(w, src).value; var z := ZoomImage(w, src, zoom, out).image;
      zoom > 1 && z.width == img.width * zoom && z.height == img.height * zoom && z.mode == img.mode
  {
    var img := Open(w, src).value;
    assert img.width * zoom >= img.width;
    assert img.height * zoom >= img.height;
  }

  /** `_make_editor_image(src_path, max_size)`, with `int(max_size[i])` given as
      `maxW` and `maxH` (`None` when it raises) and the cache path as `out`. */
  function EditorFitImage(w: World, src: string, maxW: Option<int>, maxH: Option<int>, out: string): (r: EditorImage)
    ensures maxW.None? || maxH.None? ==> r == Source
    ensures maxW.Some? && maxH.Some? && (maxW.value <= 0 || maxH.value <= 0) ==> r == Source
    ensures r.Rendered? ==> w.encode(SavePlan(Png, r.image, None, None)).Ok?
  {
    if maxW.None? || maxH.None? then Source
    else if maxW.value <= 0 || maxH.value <= 0 then Source
    else if out in w.files then Cached
    else
      match Open(w, src)
      case Err(_) => Source
      case Ok(img) =>
        if img.width <= maxW.value && img.height <= maxH.value then Source
        else
          var t := Thumbnail(img, maxW.value, maxH.value);
          if w.encode(SavePlan(Png, t, None, None)).Ok? then Rendered(t) else Source
  }

  /** An image already within the bounds is never re-rendered, and a rendered
      one is within the bounds and no larger than the source. */
  lemma EditorFitBounds(w: World, src: string, maxW: int, maxH: int, out: string)
    requires maxW > 0 && maxH > 0 && out !in w.files
    ensures Open(w, src).Ok? && Open(w, src).value.width <= maxW && Open(w, src).value.height <= maxH ==>
      EditorFitImage(w, src, Some(maxW), Some(maxH), out) == Source
    ensures var r := EditorFitImage(w, src, Some(maxW), Some(maxH), out);
      r.Rendered? ==>
        (Open(w, src).Ok? &&
         r.image.width <= maxW && r.image.height <= maxH &&
         r.image.width <= Open(w, src).value.width && r.image.height <= Open(w, src).value.height &&
         (r.image.width == maxW || r.image.height == maxH))
  {
    match Open(w, src)
    case Err(_) =>
    case Ok(img) =>
      ThumbnailFits(img.width, img.height, maxW, maxH);
  }

  // ---------------------------------------------------------------------------
  // _zip_bytes

  /** A zip file: its entries in the order they were written. Its location on
      disk is left out of the model. */
  datatype Archive = Archive(entries: seq<(string, Bytes)>)

  /** `_zip_bytes`: no archive for no files, otherwise one entry per file, in order. */
  method ZipBytes(files: seq<(string, Bytes)>) returns (r: Option<Archive>)
    ensures r.None? <==> files == []
    ensures r.Some? ==> r.value.entries == files
  {
    if files == [] {
      return None;
    }
    var written: seq<(string, Bytes)> := [];
    for i := 0 to |files|
      invariant written == files[..i]
    {
      written := written + [files[i]];
    }
    assert files[..|files|] == files;
    r := Some(Archive(written));
  }

  // ---------------------------------------------------------------------------
  // _pick_color

  /** The argument of `_pick_color`: a 3-element tuple or list, given by the
      outcome of `int()` on each element (`None` when it raises), or anything
      else, given by the string it is (`None` for `None`). */
  datatype ColorArg = Triple(a: Option<int>, b: Option<int>, c: Option<int>) | Named(name: Option<string>)

  predicate IsHexDigit(c: char) {
    '0' <= c <= '9' || 'a' <= c <= 'f' || 'A' <= c <= 'F'
  }

  function HexDigitValue(c: char): (v: nat)
    requires IsHexDigit(c)
    ensures v < 16
  {
    if '0' <= c <= '9' then c as int - '0' as int
    else if 'a' <= c <= 'f' then c as int - 'a' as int + 10
    else c as int - 'A' as int + 10
  }

  /** `int(chunk, 16)` for a chunk of two characters: surrounding whitespace is
      ignored, a sign is accepted, and at least one hexadecimal digit must
      remain; otherwise it raises (`None`). */
  function HexChunk(chunk: string): (r: Option<int>)
    requires |chunk| == 2
    ensures r.Some? ==> -15 <= r.value <= 255
  {
    HexTrimmed(Trim(chunk))
  }

  /** `int(t, 16)` once surrounding whitespace is gone, for at most two characters. */
  function HexTrimmed(t: string): (r: Option<int>)
    requires |t| <= 2
    ensures r.Some? ==> -15 <= r.value <= 255
  {
    if |t| == 2 && IsHexDigit(t[0]) && IsHexDigit(t[1]) then
      Some(16 * HexDigitValue(t[0]) + HexDigitValue(t[1]))
    else if |t| == 2 && (t[0] == '+' || t[0] == '-') && IsHexDigit(t[1]) then
      var v: int := HexDigitValue(t[1]);
      Some(if t[0] == '-' then -v else v)
    else if |t| == 1 && IsHexDigit(t[0]) then
      Some(HexDigitValue(t[0]))
    else
      None
  }

  /** `int(float(p))` for the decimal notations: an optional sign, digits, an
      optional fraction; the fraction is cut off (towards zero). */
  function FloatToInt(p: string): Option<int> {
    FloatTrimmed(Trim(p))
  }

  /** `int(float(t))` once surrounding whitespace is gone. */
  function FloatTrimmed(t: string): Option<int> {
    if |t| >= 1 && (t[0] == '-' || t[0] == '+') then
      var v := UnsignedFloat(t[1..]);
      if v.None? then None else Some(if t[0] == '-' then -(v.value as int) else v.value)
    else
      var v := UnsignedFloat(t);
      if v.None? then None else Some(v.value)
  }

  /** The whole part of an unsigned decimal `digits[.digits]` with at least one
      digit on one side of the point. */
  function UnsignedFloat(body: string): Option<nat> {
    var dot := RFind(body, '.');
    var whole := if dot >= 0 then body[..dot] else body;
    var frac := if dot >= 0 then body[dot + 1..] else "";
    if AllDigits(whole) && AllDigits(frac) && (whole != "" || frac != "") then
      Some(DigitsValue(whole))
    else
      None
  }

  /** `#rgb`: each digit doubled. */
  function ExpandShortHex(h: string): (r: string)
    requires |h| == 3
    ensures |r| == 6
  {
    [h[0], h[0], h[1], h[1], h[2], h[2]]
  }

  /** The three components `int(hexv[0:2], 16)`, `int(hexv[2:4], 16)`, `int(hexv[4:6], 16)`. */
  function HexTriple(hexv: string): Option<Rgb>
    requires |hexv| == 6
  {
    var r := HexChunk(hexv[0..2]);
    var g := HexChunk(hexv[2..4]);
    var b := HexChunk(hexv[4..6]);
    if r.Some? && g.Some? && b.Some? then Some(Rgb(r.value, g.value, b.value)) else None
  }

  /** `_pick_color(name, default)`: a full triple is used as it is and a partial
      one falls back to the default; a name is read stripped and lower-cased, a
      missing one is the default, and the keywords name fixed colours. */
  function PickColor(arg: ColorArg, default: Rgb): (r: Rgb)
    ensures arg.Triple? && arg.a.Some? && arg.b.Some? && arg.c.Some? ==>
      r == Rgb(arg.a.value, arg.b.value, arg.c.value)
    ensures arg.Triple? && (arg.a.None? || arg.b.None? || arg.c.None?) ==> r == default
    ensures arg == Named(None) ==> r == default
    ensures arg.Named? && arg.name.Some? && Lower(Trim(arg.name.value)) == "black" ==> r == Rgb(0, 0, 0)
    ensures arg.Named? && arg.name.Some? && Lower(Trim(arg.name.value)) in {"gray", "grey"} ==> r == Rgb(240, 240, 240)
    ensures arg.Named? && arg.name.Some? && Lower(Trim(arg.name.value)) == "white" ==> r == Rgb(255, 255, 255)
  {
    assert Lower(Trim("")) == "";
    match arg
    case Triple(a, b, c) =>
      if a.Some? && b.Some? && c.Some? then Rgb(a.value, b.value, c.value) else default
    case Named(name) =>
      NamedColour(Lower(Trim(if name.Some? then name.value else "")), default)
  }

  /** `_pick_color` on a name once it is stripped and lower-cased. */
  function NamedColour(s: string, default: Rgb): Rgb {
    if s == "black" then Rgb(0, 0, 0)
    else if s == "gray" || s == "grey" then Rgb(240, 240, 240)
    else if s == "white" then Rgb(255, 255, 255)
    else if |s| >= 1 && s[0] == '#' && (|s| == 4 || |s| == 7) then
      var hexv := if |s| == 4 then ExpandShortHex(s[1..]) else s[1..];
      var rgb := HexTriple(hexv);
      if rgb.Some? then rgb.value else default
    else if |s| >= 5 && s[..4] == "rgb(" && s[|s| - 1] == ')' then
      var parts := Split(s[4..|s| - 1], ',');
      if |parts| >= 3 then
        var r := FloatToInt(parts[0]);
        var g := FloatToInt(parts[1]);
        var b := FloatToInt(parts[2]);
        if r.Some? && g.Some? && b.Some? then Rgb(r.value, g.value, b.value) else default
      else default
    else default
  }

  /** Only the trimmed, lower-cased text matters: normalising it first changes nothing. */
  lemma PickColorNormalises(name: string, default: Rgb)
    ensures PickColor(Named(Some(name)), default) == PickColor(Named(Some(Lower(Trim(name)))), default)
  {
    var s := Lower(Trim(name));
    LowerKeepsTrimmed(Trim(name));
    TrimNoSpaceEnds(s);
    LowerIdempotent(Trim(name));
  }

  lemma LowerIdempotent(s: string)
    ensures Lower(Lower(s)) == Lower(s)
  {
    assert forall i :: 0 <= i < |s| ==> LowerChar(LowerChar(s[i])) == LowerChar(s[i]);
  }

  lemma LowerKeepsTrimmed(s: string)
    requires Trimmed(s)
    ensures Trimmed(Lower(s))
  {
    if s != [] {
      assert Lower(s)[0] == LowerChar(s[0]);
      assert Lower(s)[|s| - 1] == LowerChar(s[|s| - 1]);
    }
  }

  /** Lower-case hexadecimal digits, as they stand after `.lower()`. */
  predicate LowerHex(d: string) {
    forall i :: 0 <= i < |d| ==> ('0' <= d[i] <= '9' || 'a' <= d[i] <= 'f')
  }

  /** A `#`-colour of lower-case hex digits is already stripped and lower-cased. */
  lemma HexTextNormal(d: string)
    requires LowerHex(d)
    ensures Lower(Trim("#" + d)) == "#" + d
  {
    var s := "#" + d;
    assert Trimmed(s) by {
      assert s[0] == '#';
      if d != [] { assert s[|s| - 1] == d[|d| - 1]; }
    }
    TrimNoSpaceEnds(s);
    assert forall i :: 0 <= i < |s| ==> LowerChar(s[i]) == s[i] by {
      forall i | 0 <= i < |s| ensures LowerChar(s[i]) == s[i] {
        if i > 0 { assert s[i] == d[i - 1]; }
      }
    }
    assert Lower(s) == s;
  }

  /** Two lower-case hex digits parse to their value, a byte. */
  lemma HexChunkDigits(c: string)
    requires |c| == 2 && IsHexDigit(c[0]) && IsHexDigit(c[1])
    ensures HexChunk(c) == Some(16 * HexDigitValue(c[0]) + HexDigitValue(c[1]))
    ensures IsByte(HexChunk(c).value)
  {
    assert Trimmed(c);
    TrimNoSpaceEnds(c);
  }

  /** The `#rrggbb` branch of `_pick_color`. */
  lemma HexBranch(s: string, default: Rgb)
    requires |s| == 7 && s[0] == '#'
    ensures NamedColour(s, default) == (if HexTriple(s[1..]).Some? then HexTriple(s[1..]).value else default)
  {
    assert s != "black" && s != "gray" && s != "grey" && s != "white" by { assert s[0] == '#'; }
  }

  /** The `#rgb` branch of `_pick_color`. */
  lemma ShortHexBranch(s: string, default: Rgb)
    requires |s| == 4 && s[0] == '#'
    ensures var e := ExpandShortHex(s[1..]);
      NamedColour(s, default) == (if HexTriple(e).Some? then HexTriple(e).value else default)
  {
    assert s != "black" && s != "gray" && s != "grey" && s != "white" by { assert s[0] == '#'; }
  }

  /** The chunk starting at `k` of six lower-case hex digits. */
  lemma HexPair(d: string, k: nat)
    requires |d| == 6 && k <= 4 && IsHexDigit(d[k]) && IsHexDigit(d[k + 1])
    ensures HexChunk(d[k..k + 2]) == Some(16 * HexDigitValue(d[k]) + HexDigitValue(d[k + 1]))
  {
    var c := d[k..k + 2];
    assert c[0] == d[k] && c[1] == d[k + 1];
    HexChunkDigits(c);
  }

  lemma HexTripleDigits(d: string)
    requires |d| == 6 && LowerHex(d)
    ensures HexTriple(d) == Some(Rgb(16 * HexDigitValue(d[0]) + HexDigitValue(d[1]),
                                     16 * HexDigitValue(d[2]) + HexDigitValue(d[3]),
                                     16 * HexDigitValue(d[4]) + HexDigitValue(d[5])))
  {
    HexPairs(d);
  }

  lemma HexPairs(d: string)
    requires |d| == 6
    requires IsHexDigit(d[0]) && IsHexDigit(d[1]) && IsHexDigit(d[2])
    requires IsHexDigit(d[3]) && IsHexDigit(d[4]) && IsHexDigit(d[5])
    ensures HexTriple(d) == Some(Rgb(16 * HexDigitValue(d[0]) + HexDigitValue(d[1]),
                                     16 * HexDigitValue(d[2]) + HexDigitValue(d[3]),
                                     16 * HexDigitValue(d[4]) + HexDigitValue(d[5])))
  {
    HexPair(d, 0);
    HexPair(d, 2);
    HexPair(d, 4);
  }

  /** `#rrggbb` gives the three bytes it spells. */
  lemma LongHexColour(d: string, default: Rgb)
    requires |d| == 6 && LowerHex(d)
    ensures PickColor(Named(Some("#" + d)), default) ==
      Rgb(16 * HexDigitValue(d[0]) + HexDigitValue(d[1]),
          16 * HexDigitValue(d[2]) + HexDigitValue(d[3]),
          16 * HexDigitValue(d[4]) + HexDigitValue(d[5]))
  {
    var s := "#" + d;
    HexTextNormal(d);
    assert s[1..] == d;
    HexBranch(s, default);
    HexTripleDigits(d);
  }

  lemma ExpandedLowerHex(d: string)
    requires |d| == 3 && LowerHex(d)
    ensures LowerHex(ExpandShortHex(d))
  {
    var e := ExpandShortHex(d);
    forall i | 0 <= i < 6 ensures '0' <= e[i] <= '9' || 'a' <= e[i] <= 'f' {
      assert e[i] == d[i / 2];
    }
  }

  /** `#rgb` is `#rrggbb` with every digit doubled. */
  lemma ShortHexColour(d: string, default: Rgb)
    requires |d| == 3 && LowerHex(d)
    ensures PickColor(Named(Some("#" + d)), default) ==
            PickColor(Named(Some("#" + ExpandShortHex(d))), default)
  {
    var s := "#" + d;
    HexTextNormal(d);
    assert s[1..] == d;
    var e := ExpandShortHex(d);
    ShortHexBranch(s, default);
    ExpandedLowerHex(d);
    var t := "#" + e;
    HexTextNormal(e);
    assert t[1..] == e;
    HexBranch(t, default);
  }

  /** A `#`-colour with any other number of digits falls back to the default. */
  lemma OtherHexLength(d: string, default: Rgb)
    requires LowerHex(d) && |d| != 3 && |d| != 6
    ensures PickColor(Named(Some("#" + d)), default) == default
  {
    HexTextNormal(d);
    var s := "#" + d;
    assert s != "black" && s != "gray" && s != "grey" && s != "white" by { assert s[0] == '#'; }
    if |s| >= 5 {
      assert s[..4] != "rgb(" by { assert s[..4][0] == '#'; }
    }
  }

  lemma MinusOneChunk()
    ensures HexChunk("-1") == Some(-1)
  {
    var c := "-1";
    assert Trimmed(c);
    TrimNoSpaceEnds(c);
  }

  lemma SignedTriple()
    ensures HexTriple("-1-1-1") == Some(Rgb(-1, -1, -1))
  {
    var h := "-1-1-1";
    assert h[0..2] == "-1" && h[2..4] == "-1" && h[4..6] == "-1";
    MinusOneChunk();
  }

  lemma SignedHexNormal()
    ensures Lower(Trim("#-1-1-1")) == "#-1-1-1"
  {
    var s := "#-1-1-1";
    assert Trimmed(s);
    TrimNoSpaceEnds(s);
    assert NoUpper(s);
    LowerNoUpper(s);
  }

  /** As written, `int(x, 16)` also takes a sign, so the six characters
      "-1-1-1" give a triple of negative components instead of the default. */
  lemma SignedHexAccepted(default: Rgb)
    ensures PickColor(Named(Some("#-1-1-1")), default) == Rgb(-1, -1, -1)
  {
    var s := "#-1-1-1";
    SignedHexNormal();
    HexBranch(s, default);
    assert s[1..] == "-1-1-1";
    SignedTriple();
  }

  /** No upper-case ASCII letter, so `.lower()` leaves the text alone. */
  predicate NoUpper(s: string) {
    forall i :: 0 <= i < |s| ==> !('A' <= s[i] <= 'Z')
  }

  lemma LowerNoUpper(s: string)
    requires NoUpper(s)
    ensures Lower(s) == s
  {
  }

  lemma NoDot(d: string)
    requires AllDigits(d)
    ensures RFind(d, '.') == -1
  {
  }

  lemma UnsignedFloatDigits(d: string)
    requires |d| >= 1 && AllDigits(d)
    ensures UnsignedFloat(d) == Some(DigitsValue(d))
  {
    NoDot(d);
  }

  lemma FloatOfDigits(d: string)
    requires |d| >= 1 && AllDigits(d)
    ensures FloatTrimmed(d) == Some(DigitsValue(d))
  {
    assert IsDigit(d[0]);
    UnsignedFloatDigits(d);
  }

  /** A leading minus negates the reading of the digits after it. */
  lemma FloatOfMinus(t: string, d: string)
    requires |d| >= 1 && AllDigits(d)
    requires |t| >= 1 && t[0] == '-' && t[1..] == d
    ensures FloatTrimmed(t) == Some(-(DigitsValue(d) as int))
  {
    UnsignedFloatDigits(d);
  }

  lemma FloatOfMinusDigits(t: string, d: string, n: int)
    requires MinusDigits(t, d) && DigitsValue(d) == -n
    ensures FloatToInt(t) == Some(n)
  {
    FloatOfMinus(t, d);
    TrimNegativeDigits(t, d);
  }

  lemma FloatOfNegativeDecimal(n: int)
    requires n < 0
    ensures FloatToInt(IntToDecimal(n)) == Some(n)
  {
    NegativeDecimalShape(n);
    DigitsOfNat(-n);
    FloatOfMinusDigits(IntToDecimal(n), NatToDecimal(-n), n);
  }

  lemma FloatOfNaturalDecimal(n: nat)
    ensures FloatToInt(IntToDecimal(n)) == Some(n)
  {
    var d := NatToDecimal(n);
    assert IntToDecimal(n) == d;
    DigitsOfNat(n);
    FloatOfDigits(d);
    TrimDigits(d);
  }

  /** 2^53: every integer up to this size is exactly a double, so `float()` of
      its decimal text does not round it. */
  const DOUBLE_EXACT: int := 0x20000000000000

  predicate ExactInDouble(n: int) {
    -DOUBLE_EXACT <= n <= DOUBLE_EXACT
  }

  /** `int(float(str(n))) == n` for every integer a double holds exactly. */
  lemma FloatOfDecimal(n: int)
    requires ExactInDouble(n)
    ensures FloatToInt(IntToDecimal(n)) == Some(n)
  {
    if n < 0 {
      FloatOfNegativeDecimal(n);
    } else {
      FloatOfNaturalDecimal(n);
    }
  }

  /** The text of `str(n)` holds no comma and no upper-case letter. */
  lemma DecimalTextPlain(n: int)
    ensures ',' !in IntToDecimal(n) && NoUpper(IntToDecimal(n))
  {
    IntToDecimalShape(n);
    var d := NatToDecimal(if n < 0 then -n else n);
    assert forall i :: 0 <= i < |d| ==> IsDigit(d[i]);
    var t := IntToDecimal(n);
    forall i | 0 <= i < |t| ensures t[i] != ',' && !('A' <= t[i] <= 'Z') {
      if n < 0 && i > 0 {
        assert t[i] == d[i - 1];
      }
    }
  }

  /** The `rgb(...)` branch of `_pick_color`. */
  lemma RgbBranch(s: string, default: Rgb)
    requires |s| >= 5 && s[..4] == "rgb(" && s[|s| - 1] == ')'
    ensures var parts := Split(s[4..|s| - 1], ',');
      NamedColour(s, default) ==
        if |parts| >= 3 && FloatToInt(parts[0]).Some? && FloatToInt(parts[1]).Some? && FloatToInt(parts[2]).Some?
        then Rgb(FloatToInt(parts[0]).value, FloatToInt(parts[1]).value, FloatToInt(parts[2]).value)
        else default
  {
    assert s[0] == s[..4][0] == 'r';
    assert s != "black" && s != "gray" && s != "grey" && s != "white";
  }

  function RgbText(a: int, b: int, c: int): string {
    "rgb(" + IntToDecimal(a) + "," + IntToDecimal(b) + "," + IntToDecimal(c) + ")"
  }

  lemma NoUpperConcat(x: string, y: string)
    requires NoUpper(x) && NoUpper(y)
    ensures NoUpper(x + y)
  {
    forall i | 0 <= i < |x + y| ensures !('A' <= (x + y)[i] <= 'Z') {
      if i >= |x| { assert (x + y)[i] == y[i - |x|]; }
    }
  }

  lemma RgbTextNoUpper(a: int, b: int, c: int)
    ensures NoUpper(RgbText(a, b, c))
  {
    DecimalTextPlain(a);
    DecimalTextPlain(b);
    DecimalTextPlain(c);
    var A, B, C := IntToDecimal(a), IntToDecimal(b), IntToDecimal(c);
    NoUpperConcat("rgb(", A);
    NoUpperConcat("rgb(" + A, ",");
    NoUpperConcat("rgb(" + A + ",", B);
    NoUpperConcat("rgb(" + A + "," + B, ",");
    NoUpperConcat("rgb(" + A + "," + B + ",", C);
    NoUpperConcat("rgb(" + A + "," + B + "," + C, ")");
  }

  /** The text `rgb(a,b,c)` is already trimmed and lower-case. */
  lemma RgbTextNormal(a: int, b: int, c: int)
    ensures Lower(Trim(RgbText(a, b, c))) == RgbText(a, b, c)
  {
    var s := RgbText(a, b, c);
    assert Trimmed(s) by { assert s[0] == 'r' && s[|s| - 1] == ')'; }
    TrimNoSpaceEnds(s);
    RgbTextNoUpper(a, b, c);
    LowerNoUpper(s);
  }

  /** Between `rgb(` and `)` lie the three decimals, separated by commas. */
  lemma RgbTextParts(a: int, b: int, c: int)
    ensures var s := RgbText(a, b, c);
      |s| >= 5 && s[..4] == "rgb(" && s[|s| - 1] == ')' &&
      Split(s[4..|s| - 1], ',') == [IntToDecimal(a), IntToDecimal(b), IntToDecimal(c)]
  {
    var A, B, C := IntToDecimal(a), IntToDecimal(b), IntToDecimal(c);
    DecimalTextPlain(a);
    DecimalTextPlain(b);
    DecimalTextPlain(c);
    var s := RgbText(a, b, c);
    var inner := A + "," + B + "," + C;
    assert s == "rgb(" + inner + ")";
    assert s[4..|s| - 1] == inner;
    SplitThree(A, B, C);
  }

  /** Three comma-free texts joined by commas split back into themselves. */
  lemma SplitThree(x: string, y: string, z: string)
    requires ',' !in x && ',' !in y && ',' !in z
    ensures Split(x + "," + y + "," + z, ',') == [x, y, z]
  {
    Join3(x, y, z, ',');
    SplitJoin([x, y, z], ',');
  }

  /** `rgb(a,b,c)` written with integers that doubles hold exactly gives exactly
      that triple. */
  lemma RgbColour(a: int, b: int, c: int, default: Rgb)
    requires ExactInDouble(a) && ExactInDouble(b) && ExactInDouble(c)
    ensures PickColor(Named(Some(RgbText(a, b, c))), default) == Rgb(a, b, c)
  {
    RgbTextNormal(a, b, c);
    RgbTextParts(a, b, c);
    RgbBranch(RgbText(a, b, c), default);
    FloatOfDecimal(a);
    FloatOfDecimal(b);
    FloatOfDecimal(c);
  }
}
