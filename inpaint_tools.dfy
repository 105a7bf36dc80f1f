/** The inpainting tool: the form sent to the lama-cleaner server, the error
    text of a failed call, `batch_inpaint_ui` and `inpaint_single_ui`. The
    HTTP exchange itself is a parameter. */
module Inpaint {
  import opened Wrappers
  import opened Text
  import opened Imaging
  import opened Config
  import opened FileUtils
  import opened Batch
  import opened Masks

  // ---------------------------------------------------------------------------
  // The form

  /** A form, as the ordered key/value pairs of the dictionary. */
  type Form = seq<(string, string)>

  /** The keys of every `/inpaint` request, in order. */
  const FORM_KEYS: seq<string> := [
    "ldmSteps", "ldmSampler", "zitsWireframe", "hdStrategy", "hdStrategyCropMargin",
    "hdStrategyCropTrigerSize", "hdStrategyResizeLimit", "prompt", "negativePrompt", "useCroper",
    "croperX", "croperY", "croperHeight", "croperWidth", "sdScale", "sdMaskBlur", "sdStrength",
    "sdSteps", "sdGuidanceScale", "sdSampler", "sdSeed", "sdMatchHistograms", "cv2Flag",
    "cv2Radius", "paintByExampleSteps", "paintByExampleGuidanceScale", "paintByExampleMaskBlur",
    "paintByExampleSeed", "paintByExampleMatchHistograms", "p2pSteps", "p2pImageGuidanceScale",
    "p2pGuidanceScale", "controlnet_conditioning_scale", "controlnet_method", "name", "upscale",
    "clicks", "filename", "clean_img"]

  /** The fixed fields before the two croper sizes. */
  const FORM_HEAD: Form := [
    ("ldmSteps", "20"), ("ldmSampler", "plms"), ("zitsWireframe", "false"), ("hdStrategy", "Crop"),
    ("hdStrategyCropMargin", "196"), ("hdStrategyCropTrigerSize", "800"),
    ("hdStrategyResizeLimit", "2048"), ("prompt", ""), ("negativePrompt", ""), ("useCroper", "false"),
    ("croperX", "0"), ("croperY", "0")]

  /** The fixed fields after the two croper sizes. */
  const FORM_TAIL: Form := [
    ("sdScale", "1.0"), ("sdMaskBlur", "0"), ("sdStrength", "0.75"), ("sdSteps", "50"),
    ("sdGuidanceScale", "7.5"), ("sdSampler", "uni_pc"), ("sdSeed", "-1"), ("sdMatchHistograms", "false"),
    ("cv2Flag", "INPAINT_NS"), ("cv2Radius", "4"), ("paintByExampleSteps", "50"),
    ("paintByExampleGuidanceScale", "7.5"), ("paintByExampleMaskBlur", "0"), ("paintByExampleSeed", "-1"),
    ("paintByExampleMatchHistograms", "false"), ("p2pSteps", "50"), ("p2pImageGuidanceScale", "1.5"),
    ("p2pGuidanceScale", "7.5"), ("controlnet_conditioning_scale", "0.4"),
    ("controlnet_method", "control_v11p_sd15_canny"), ("name", "lama"), ("upscale", "false"),
    ("clicks", "[]"), ("filename", "image.png"), ("clean_img", "false")]

  /** `_lama_form_defaults((width, height))`: every key the server reads, with
      the image size as the croper size (`int(v) if v else 0` leaves an
      integer side as it is). */
  function LamaFormDefaults(width: int, height: int): (r: Form)
    ensures |r| == |FORM_KEYS|
    ensures r[12] == ("croperHeight", IntToDecimal(height))
    ensures r[13] == ("croperWidth", IntToDecimal(width))
  {
    FORM_HEAD + [("croperHeight", IntToDecimal(height)), ("croperWidth", IntToDecimal(width))] + FORM_TAIL
  }

  /** The keys of the fixed fields are those of the key list. */
  lemma HeadKeys(k: nat)
    requires k < |FORM_HEAD|
    ensures FORM_HEAD[k].0 == FORM_KEYS[k]
  {
  }

  lemma TailKeys(k: nat)
    requires k < |FORM_TAIL|
    ensures FORM_TAIL[k].0 == FORM_KEYS[14 + k]
  {
    if k < 12 {
      FirstTailKeys(k);
    } else {
      LastTailKeys(k);
    }
  }

  lemma FirstTailKeys(k: nat)
    requires k < 12
    ensures FORM_TAIL[k].0 == FORM_KEYS[14 + k]
  {
  }

  lemma LastTailKeys(k: nat)
    requires 12 <= k < |FORM_TAIL|
    ensures FORM_TAIL[k].0 == FORM_KEYS[14 + k]
  {
  }

  /** The form carries the keys of the key list, in that order. */
  lemma FormKeys(width: int, height: int, k: nat)
    requires k < |FORM_KEYS|
    ensures LamaFormDefaults(width, height)[k].0 == FORM_KEYS[k]
  {
    if k < 12 {
      FormAtHead(width, height, k);
      HeadKeys(k);
    } else if k >= 14 {
      FormAtTail(width, height, k);
      TailKeys(k - 14);
    }
  }

  lemma FormAtHead(width: int, height: int, k: nat)
    requires k < |FORM_HEAD|
    ensures LamaFormDefaults(width, height)[k] == FORM_HEAD[k]
  {
  }

  lemma FormAtTail(width: int, height: int, k: nat)
    requires 14 <= k < |FORM_KEYS|
    ensures LamaFormDefaults(width, height)[k] == FORM_TAIL[k - 14]
  {
  }

  /** Only the two croper sizes depend on the image. */
  lemma FormSizeIndependent(w1: int, h1: int, w2: int, h2: int, k: nat)
    requires k < |FORM_KEYS| && k != 12 && k != 13
    ensures LamaFormDefaults(w1, h1)[k] == LamaFormDefaults(w2, h2)[k]
  {
  }

  // ---------------------------------------------------------------------------
  // Exceptions and the HTTP call

  /** A raised exception: its type name, `str(e)` (`None` when that raises),
      and `repr(e)`. */
  datatype Exc = Exc(typeName: string, text: Option<string>, repr: string)

  /** `_format_exc(e)`: "Type: message", or "Type: repr" when the stripped
      message is empty. */
  function FormatExc(e: Exc): (r: string)
    ensures e.typeName + ": " <= r
    ensures var msg := if e.text.None? then "" else Trim(e.text.value);
      r == e.typeName + ": " + (if msg != "" then msg else e.repr)
  {
    var msg := if e.text.None? then "" else Trim(e.text.value);
    if msg != "" then e.typeName + ": " + msg else e.typeName + ": " + e.repr
  }

  /** Surrounding whitespace of the message never shows, and a blank message
      falls back to the representation. */
  lemma FormatExcNormalises(typeName: string, text: string, repr: string)
    ensures FormatExc(Exc(typeName, Some(text), repr)) == FormatExc(Exc(typeName, Some(Trim(text)), repr))
    ensures Trim(text) == "" ==> FormatExc(Exc(typeName, Some(text), repr)) == typeName + ": " + repr
    ensures FormatExc(Exc(typeName, None, repr)) == typeName + ": " + repr
  {
    TrimIdempotent(text);
  }

  /** Something that either gives a value or raises. */
  datatype Attempted<T> = Done(value: T) | Raised(exc: Exc)

  /** The server's answer: status code, body text and body bytes. */
  datatype Response = Response(status: int, text: string, content: Bytes)

  /** The exchange with the server: the image bytes, the mask and the form
      go out, a response comes back or the client raises. */
  type Post = (Bytes, Luma, Form) -> Attempted<Response>

  /** The error `_lama_inpaint` raises for a status other than 200. */
  function StatusError(resp: Response): (e: Exc)
    ensures e.typeName == "RuntimeError"
  {
    var shown := resp.text[..Min(800, |resp.text|)];
    var msg := "/inpaint failed " + IntToDecimal(resp.status) + ": " + shown;
    Exc("RuntimeError", Some(msg), "RuntimeError('" + msg + "')")
  }

  /** `_lama_inpaint(image_bytes, mask_bytes)`, given how `_to_pil` fared on
      the image bytes (`decodeExc` is the exception it raises on failure). */
  function LamaInpaint(image: Bytes, decoded: Result<Img>, decodeExc: string -> Exc,
                       mask: Luma, post: Post): (r: Attempted<Bytes>)
    ensures decoded.Err? ==> r == Raised(decodeExc(decoded.msg))
    ensures decoded.Ok? ==>
      var form := LamaFormDefaults(decoded.value.width, decoded.value.height);
      match post(image, mask, form)
      case Raised(e) => r == Raised(e)
      case Done(resp) => r == if resp.status == 200 then Done(resp.content) else Raised(StatusError(resp))
  {
    match decoded
    case Err(e) => Raised(decodeExc(e))
    case Ok(img) =>
      match post(image, mask, LamaFormDefaults(img.width, img.height))
      case Raised(e) => Raised(e)
      case Done(resp) => if resp.status != 200 then Raised(StatusError(resp)) else Done(resp.content)
  }

  /** The text of a refused request: "RuntimeError: /inpaint failed <status>: "
      and then at most 800 characters of the body, stripped. */
  lemma StatusErrorText(resp: Response)
    ensures var shown := resp.text[..Min(800, |resp.text|)];
      FormatExc(StatusError(resp)) ==
        "RuntimeError: " + Trim("/inpaint failed " + IntToDecimal(resp.status) + ": " + shown)
  {
    var msg := StatusError(resp).text.value;
    assert msg[0] == '/';
    TrimKeepsFirst(msg);
    FormatExcOfText(StatusError(resp), msg);
  }

  /** An exception whose message is not blank shows as "Type: message". */
  lemma FormatExcOfText(e: Exc, msg: string)
    requires e.text == Some(msg) && Trim(msg) != ""
    ensures FormatExc(e) == e.typeName + ": " + Trim(msg)
  {
  }

  // ---------------------------------------------------------------------------
  // batch_inpaint_ui

  /** The mask an item is inpainted with: a saved zoom mask wins over the
      mask drawn in the editor slot. */
  function ChosenMask(o: Option<Overrides>, idx: int, editor: Value, size: Option<(Dim, Dim)>, w: World)
    : (r: Option<Luma>)
    ensures GetMaskOverride(o, idx).Some? ==> r == GetMaskOverride(o, idx)
    ensures GetMaskOverride(o, idx).None? ==> r == ExtractEditorMask(editor, size, w)
  {
    var saved := GetMaskOverride(o, idx);
    if saved.Some? then saved else ExtractEditorMask(editor, size, w)
  }

  /** The settings of one `batch_inpaint_ui` call. */
  datatype InpaintJob = InpaintJob(
    editors: seq<Value>, format: string, quality: int, overrides: Option<Overrides>,
    post: Post, decodeExc: string -> Exc)

  /** The editor value of slot `i` (every slot asked for exists). */
  function Slot(editors: seq<Value>, i: int): Value {
    if 0 <= i < |editors| then editors[i] else NoneV
  }

  /** The name of an inpainted output: `f"{base}_clean.{ext}"`. */
  function CleanName(base: string, fmt: string): string {
    base + "_clean." + ExtOf(fmt)
  }

  /** After inpainting: `_to_pil(out_png).convert("RGBA")`, then `_save_image_bytes`. */
  function Export(world: World, base: string, out: Bytes, fmt: string, quality: int): (r: Outcome)
    ensures r.Failed? ==> r.base == base && "export failed: " <= r.reason
    ensures r.Produced? ==> r.entry.0 == CleanName(base, fmt)
  {
    match ToPil(Raw(out), world)
    case Err(e) => Failed(base, "export failed: " + e)
    case Ok(img) =>
      match SaveImageBytes(world, Convert(img, "RGBA"), fmt, quality, WHITE)
      case Err(e) => Failed(base, "export failed: " + e)
      case Ok(bytes) => Produced((CleanName(base, fmt), bytes))
  }

  /** `_run_one(idx, path)`: read, find the mask, inpaint, export. */
  function InpaintItem(world: World, job: InpaintJob, item: (int, string)): (r: Outcome)
    ensures r.Failed? ==> r.base == Stem(item.1)
    ensures r.Produced? ==> r.entry.0 == CleanName(Stem(item.1), job.format)
  {
    var (idx, path) := item;
    var base := Stem(path);
    match world.read(path)
    case Err(e) => Failed(base, "read failed: " + e)
    case Ok(bytes) =>
      match world.decode(bytes)
      case Err(e) => Failed(base, "read failed: " + e)
      case Ok(img) =>
        match ChosenMask(job.overrides, idx, Slot(job.editors, idx), Some((img.width, img.height)), world)
        case None => Failed(base, "No mask -> skip")
        case Some(mask) =>
          match LamaInpaint(bytes, Ok(img), job.decodeExc, mask, job.post)
          case Raised(e) => Failed(base, "inpaint failed: " + FormatExc(e))
          case Done(out) => Export(world, base, out, job.format, job.quality)
  }

  /** The items attempted: one per input that has an editor slot, with its index. */
  function Attempts(paths: seq<string>, editors: seq<Value>): (r: seq<(int, string)>)
    ensures |r| == Min(|paths|, |editors|)
    ensures forall i :: 0 <= i < |r| ==> r[i] == (i, paths[i])
  {
    seq(Min(|paths|, |editors|), i requires 0 <= i < Min(|paths|, |editors|) => (i, paths[i]))
  }

  /** `batch_inpaint_ui(input_files, *args)` with `args` given as the editor
      values before the format (only the first `EDITOR_SLOTS` are used), the
      format, the quality and the saved masks. The items run one after the
      other here. */
  method BatchInpaint(world: World, files: Value, editorArgs: seq<Value>, format: string, quality: int,
                      overrides: Option<Overrides>, post: Post, decodeExc: string -> Exc)
    returns (r: BatchResult)
    ensures var paths := Kept(Candidates(files), world.existing);
      var job := InpaintJob(editorArgs[..Min(EDITOR_SLOTS, |editorArgs|)], format, quality, overrides, post, decodeExc);
      r == if paths == [] then NO_INPUT
           else Summary(Outcomes(Attempts(paths, job.editors), item => InpaintItem(world, job, item)))
  {
    var paths := NormalizeFiles(files, world.existing);
    if paths == [] {
      return NO_INPUT;
    }
    var editors := editorArgs[..Min(EDITOR_SLOTS, |editorArgs|)];
    var job := InpaintJob(editors, format, quality, overrides, post, decodeExc);
    r := RunBatch(Attempts(paths, editors), item => InpaintItem(world, job, item));
  }

  /** At most `EDITOR_SLOTS` inputs are attempted, each giving one output
      named `<base>_clean.<ext>` or one log line about it. */
  lemma BatchInpaintAccounts(world: World, paths: seq<string>, job: InpaintJob)
    requires |job.editors| <= EDITOR_SLOTS
    ensures var outs := Outcomes(Attempts(paths, job.editors), item => InpaintItem(world, job, item));
      |outs| == Min(|paths|, |job.editors|) <= EDITOR_SLOTS &&
      |Successes(outs)| + |Failures(outs)| == |outs| &&
      forall i :: 0 <= i < |outs| && outs[i].Produced? ==> outs[i].entry.0 == CleanName(Stem(paths[i]), job.format)
  {
    var outs := Outcomes(Attempts(paths, job.editors), item => InpaintItem(world, job, item));
    OutcomesCounted(outs);
  }

  /** An item with a saved mask is inpainted with that mask, whatever its
      editor slot holds. */
  lemma OverridePreferred(world: World, job: InpaintJob, idx: int, path: string, bytes: Bytes, img: Img, mask: Luma)
    requires world.read(path) == Ok(bytes) && world.decode(bytes) == Ok(img)
    requires GetMaskOverride(job.overrides, idx) == Some(mask)
    ensures var job2 := job.(editors := seq(|job.editors|, _ => NoneV));
      InpaintItem(world, job, (idx, path)) == InpaintItem(world, job2, (idx, path))
    ensures InpaintItem(world, job, (idx, path)) ==
      match LamaInpaint(bytes, Ok(img), job.decodeExc, mask, job.post)
      case Raised(e) => Failed(Stem(path), "inpaint failed: " + FormatExc(e))
      case Done(out) => Export(world, Stem(path), out, job.format, job.quality)
  {
  }

  // ---------------------------------------------------------------------------
  // inpaint_single_ui

  /** `_editor_file_path(editor_value)`: the first of "background",
      "composite" and "image" that resolves to an existing path. */
  function EditorFilePath(editor: Value, existing: set<string>): (r: Option<string>)
    ensures r.Some? ==> r.value != "" && r.value in existing
    ensures !editor.Dict? ==> r.None?
  {
    if !editor.Dict? then None
    else
      var m := editor.entries;
      var b := FileToPath(Get(m, "background"), existing);
      var c := FileToPath(Get(m, "composite"), existing);
      var i := FileToPath(Get(m, "image"), existing);
      if Usable(b, existing) then b
      else if Usable(c, existing) then c
      else if Usable(i, existing) then i
      else None
  }

  /** The keys `_editor_file_path` and `_extract_editor_image_bytes` try, in order. */
  const EDITOR_KEYS: seq<string> := ["background", "composite", "image"]

  /** The path the editor's `k`-th key names. */
  function EditorPathAt(m: map<string, Value>, k: nat, existing: set<string>): Option<string>
    requires k < |EDITOR_KEYS|
  {
    FileToPath(Get(m, EDITOR_KEYS[k]), existing)
  }

  /** The editor's file is the first key, in order, that names an existing file,
      and there is none exactly when no key does. */
  lemma EditorFilePathIsFirst(m: map<string, Value>, existing: set<string>)
    ensures var r := EditorFilePath(Dict(m), existing);
      (r.None? <==> forall k :: 0 <= k < |EDITOR_KEYS| ==> !Usable(EditorPathAt(m, k, existing), existing)) &&
      (forall k ::
         (0 <= k < |EDITOR_KEYS| && Usable(EditorPathAt(m, k, existing), existing) &&
          (forall j :: 0 <= j < k ==> !Usable(EditorPathAt(m, j, existing), existing)))
         ==> r == EditorPathAt(m, k, existing))
  {
    assert EditorPathAt(m, 0, existing) == FileToPath(Get(m, "background"), existing);
    assert EditorPathAt(m, 1, existing) == FileToPath(Get(m, "composite"), existing);
    assert EditorPathAt(m, 2, existing) == FileToPath(Get(m, "image"), existing);
  }

  /** The path `inpaint_single_ui` settles on before checking it exists: the
      file-list entry at `index`, a single non-list handle, or else the
      editor's own file. */
  function SinglePath(fileList: Value, editor: Value, index: nat, existing: set<string>): (r: Option<string>)
    ensures r.Some? ==> r.value != ""
    ensures r == EditorFilePath(editor, existing) ||
            (fileList.List? && index < |fileList.items| && r == FileToPath(fileList.items[index], existing)) ||
            (!fileList.List? && Truthy(fileList) && r == FileToPath(fileList, existing))
    ensures !Truthy(fileList) ==> r == EditorFilePath(editor, existing)
  {
    var fromList :=
      if fileList.List? && fileList.items != [] && index < |fileList.items| then FileToPath(fileList.items[index], existing)
      else if Truthy(fileList) && !fileList.List? then FileToPath(fileList, existing)
      else None;
    if fromList.None? || fromList.value == "" then EditorFilePath(editor, existing) else fromList
  }

  /** A usable file-list entry wins over anything the editor holds. */
  lemma ListEntryWins(items: seq<Value>, editor: Value, index: nat, existing: set<string>)
    requires index < |items|
    requires var p := FileToPath(items[index], existing); p.Some? && p.value != ""
    ensures SinglePath(List(items), editor, index, existing) == FileToPath(items[index], existing)
  {
  }

  /** A file list entry that does not resolve to a non-empty path gives way
      to the editor's file. */
  lemma EntryUnresolvedFallback(items: seq<Value>, editor: Value, index: nat, existing: set<string>)
    requires index < |items|
    requires var p := FileToPath(items[index], existing); p.None? || p.value == ""
    ensures SinglePath(List(items), editor, index, existing) == EditorFilePath(editor, existing)
  {
  }

  /** A single truthy file handle (not a list) that resolves to a non-empty
      path wins over the editor's file. */
  lemma HandleWins(fileList: Value, editor: Value, index: nat, existing: set<string>)
    requires !fileList.List? && Truthy(fileList)
    requires FileToPath(fileList, existing).Some? && FileToPath(fileList, existing).value != ""
    ensures SinglePath(fileList, editor, index, existing) == FileToPath(fileList, existing)
  {
  }

  /** A single file handle that does not resolve to a non-empty path gives way
      to the editor's file. */
  lemma HandleUnresolvedFallback(fileList: Value, editor: Value, index: nat, existing: set<string>)
    requires !fileList.List?
    requires var p := FileToPath(fileList, existing); p.None? || p.value == ""
    ensures SinglePath(fileList, editor, index, existing) == EditorFilePath(editor, existing)
  {
  }

  /** Without a file-list entry the editor's file is used. */
  lemma EditorPathFallback(items: seq<Value>, editor: Value, index: nat, existing: set<string>)
    requires index >= |items|
    ensures SinglePath(List(items), editor, index, existing) == EditorFilePath(editor, existing)
  {
  }

  /** PNG bytes of `_to_pil(v).convert("RGBA")`, if both steps succeed. */
  function PngOf(v: Value, world: World): Option<Bytes> {
    match ToPil(v, world)
    case Err(_) => None
    case Ok(img) =>
      match world.encode(SavePlan(Png, Convert(img, "RGBA"), None, None))
      case Err(_) => None
      case Ok(b) => Some(b)
  }

  /** One key of the loop in `_extract_editor_image_bytes`: the file the value
      names, if it exists and reads, else the value as a PNG. */
  function KeyBytes(val: Value, world: World): (r: Option<Bytes>)
    ensures val.NoneV? ==> r.None?
    ensures var p := FileToPath(val, world.existing);
      !val.NoneV? && Usable(p, world.existing) && world.read(p.value).Ok? ==> r == Some(world.read(p.value).value)
    ensures var p := FileToPath(val, world.existing);
      !val.NoneV? && !(Usable(p, world.existing) && world.read(p.value).Ok?) ==> r == PngOf(val, world)
  {
    if val.NoneV? then None
    else
      var p := FileToPath(val, world.existing);
      var read := if Usable(p, world.existing) then world.read(p.value) else Err("");
      if Usable(p, world.existing) && read.Ok? then Some(read.value) else PngOf(val, world)
  }

  /** `_extract_editor_image_bytes(editor_value)`. */
  function EditorImageBytes(editor: Value, world: World): (r: Option<Bytes>)
    ensures editor.NoneV? ==> r.None?
    ensures !editor.NoneV? && !editor.Dict? ==> r == PngOf(editor, world)
  {
    if editor.NoneV? then None
    else
      var fromKeys :=
        if editor.Dict? then
          var b := KeyBytes(Get(editor.entries, "background"), world);
          var c := KeyBytes(Get(editor.entries, "composite"), world);
          var i := KeyBytes(Get(editor.entries, "image"), world);
          if b.Some? then b else if c.Some? then c else i
        else None;
      if fromKeys.Some? then fromKeys else PngOf(editor, world)
  }

  /** What the editor's `k`-th key yields. */
  function EditorBytesAt(m: map<string, Value>, k: nat, world: World): Option<Bytes>
    requires k < |EDITOR_KEYS|
  {
    KeyBytes(Get(m, EDITOR_KEYS[k]), world)
  }

  /** The editor's bytes come from the first key, in order, that yields any,
      and from the whole value as a PNG when none does. */
  lemma EditorImageBytesIsFirst(m: map<string, Value>, world: World)
    ensures var r := EditorImageBytes(Dict(m), world);
      ((forall k :: 0 <= k < |EDITOR_KEYS| ==> EditorBytesAt(m, k, world).None?) ==> r == PngOf(Dict(m), world)) &&
      (forall k ::
         (0 <= k < |EDITOR_KEYS| && EditorBytesAt(m, k, world).Some? &&
          (forall j :: 0 <= j < k ==> EditorBytesAt(m, j, world).None?))
         ==> r == EditorBytesAt(m, k, world))
  {
    assert EditorBytesAt(m, 0, world) == KeyBytes(Get(m, "background"), world);
    assert EditorBytesAt(m, 1, world) == KeyBytes(Get(m, "composite"), world);
    assert EditorBytesAt(m, 2, world) == KeyBytes(Get(m, "image"), world);
  }

  /** What `inpaint_single_ui` returns: the status message alone when nothing
      is produced, or the output with its one-entry archive and "OK". */
  datatype SingleResult = NoChange(message: string) | Finished(entry: Entry, archive: Archive, log: string)

  /** The settings of one `inpaint_single_ui` call. */
  datatype SingleJob = SingleJob(format: string, quality: int, overrides: Option<Overrides>,
                                 post: Post, decodeExc: string -> Exc)

  /** The inpainting after the image bytes and the base name are known. */
  function InpaintBytes(world: World, job: SingleJob, editor: Value, index: nat, base: string, bytes: Bytes)
    : (r: SingleResult)
    ensures r.Finished? ==> r.entry.0 == CleanName(base, job.format) && r.archive == Archive([r.entry]) && r.log == "OK"
  {
    var decoded := world.decode(bytes);
    var size: Option<(Dim, Dim)> := if decoded.Ok? then Some((decoded.value.width, decoded.value.height)) else None;
    match ChosenMask(job.overrides, index, editor, size, world)
    case None => NoChange(LogLine(base, "No mask -> skip"))
    case Some(mask) =>
      match LamaInpaint(bytes, decoded, job.decodeExc, mask, job.post)
      case Raised(e) => NoChange(LogLine(base, "inpaint failed: " + FormatExc(e)))
      case Done(out) =>
        match Export(world, base, out, job.format, job.quality)
        case Failed(b, why) => NoChange(LogLine(b, why))
        case Produced(e) => Finished(e, Archive([e]), "OK")
  }

  /** `inpaint_single_ui(file_list, editor_value, out_format, quality,
      mask_overrides, index)`. */
  function InpaintSingle(world: World, job: SingleJob, fileList: Value, editor: Value, index: nat)
    : (r: SingleResult)
    ensures var p := SinglePath(fileList, editor, index, world.existing);
      var base := if Usable(p, world.existing) then Stem(p.value) else "editor_" + IntToDecimal(index + 1);
      r.Finished? ==> r.entry.0 == CleanName(base, job.format)
    ensures var p := SinglePath(fileList, editor, index, world.existing);
      !Usable(p, world.existing) && (EditorImageBytes(editor, world).None? || EditorImageBytes(editor, world) == Some([])) ==>
        r == NoChange("No input file.")
  {
    var p := SinglePath(fileList, editor, index, world.existing);
    if Usable(p, world.existing) then
      var base := Stem(p.value);
      match world.read(p.value)
      case Err(e) => NoChange(LogLine(base, "read failed: " + e))
      case Ok(bytes) => InpaintBytes(world, job, editor, index, base, bytes)
    else
      var bytes := EditorImageBytes(editor, world);
      if bytes.None? || bytes.value == [] then NoChange("No input file.")
      else InpaintBytes(world, job, editor, index, "editor_" + IntToDecimal(index + 1), bytes.value)
  }
}
