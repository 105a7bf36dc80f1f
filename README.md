# image-service batch core in Dafny

image-service is a small web application for batch image work. Its tools each
take a batch of uploaded files and return a gallery, a zip archive and a log:

- LaMa inpainting drives an external lama-cleaner server with a mask painted
  in an editor slot or saved from a zoom editor.
- Background removal uses rembg sessions, which are kept in a cache.
- Resizing offers `Fit`, `Crop` and `Pad` modes.
- Compression re-encodes each input, with the format picked automatically or
  chosen by the user.

This project models the shared batch pipeline those tools run. The model
covers:

- how upload handles become paths;
- how colours are parsed;
- how an image is flattened and encoded;
- the geometry of thumbnails, contained and padded images;
- binarisation and nearest-neighbour resizing of masks;
- the rembg choice resolution and session cache;
- the form sent to the inpainting server and how its errors are reported;
- the per-item steps of every tool and the summary each batch returns;
- the `NO_PROXY` fix-up run at start-up.

Anything the tools observe from the machine is a parameter: file existence,
file contents, PIL's decoder and encoder, the HTTP call, and rembg inference.
The `World` record in `file_utils.dfy` carries those, and `Post` and `remove`
stand for the server and the model. Each batch is specified by the
`Summary` of its per-item `Outcomes` (module `Batch`). The properties proved
are about that summary and about the item functions.

Modules and files:

- `wrappers.dfy`: `Option`, `Result`
- `text.dfy`: the `str` and `os.path` operations the code relies on
- `config.dfy`: `config.py`
- `imaging.dfy`: PIL geometry
- `file_utils.dfy`: `file_utils.py`
- `batch.dfy`: the loop shape shared by every tool
- `masks.dfy`: mask handling of `inpaint_tools.py`
- `inpaint_tools.dfy`: the rest of `inpaint_tools.py`
- `rembg_tools.dfy`, `resize_tools.dfy`, `compress_tools.dfy`: the tools of
  the same names

## Model

| member | source | states |
|---|---|---|
| Config.ConstantsAsConfigured | config.py:5-25 | the concurrency limit is 2 and there are 8 editor slots; the compress menu starts with the automatic entry, which appears only once |
| Config.Environment.EnsureNoProxy | config.py:28-35 | both `NO_PROXY` and `no_proxy` are rewritten to the fixed-up value of what they held, and every other variable keeps its value |
| Config.NoProxyFor | config.py:29-35 | the loop over the parts and hosts builds exactly the joined value the specification function describes |
| Config.CleanPartsAreClean | config.py:31 | every kept part is non-empty and already stripped |
| Config.CleanPartsNoComma | config.py:31 | pieces split at commas stay free of commas after stripping |
| Config.CleanPartsOfClean | config.py:31 | cleaning a list of clean parts changes nothing |
| Config.AddMissingAppends | config.py:32-34 | appending the hosts that are missing adds exactly the missing hosts, in their order, after the existing parts |
| Config.MissingHostsFromList | config.py:32-34 | every appended host is in the host list and was not already present |
| Config.NoProxyPartsShape | config.py:31-34 | the final parts are the cleaned parts followed by the loopback hosts that were missing |
| Config.LoopbackMissing | config.py:32-34 | `127.0.0.1` is added exactly when absent, then `localhost` exactly when absent |
| Config.NoProxyValue | config.py:31-35 | splitting the joined value at commas gives back exactly the parts, all of them clean |
| Config.NoProxyHasLoopback | config.py:32-35 | after the fix-up both loopback hosts are listed |
| Config.NoProxyNoDuplicateHost | config.py:33 | a host already listed is never appended again |
| Config.NoProxyIdempotent | config.py:28-35 | fixing up an already fixed-up value gives it back unchanged |
| Config.UpdatedIdempotent | config.py:29-35 | rewriting both keys with an idempotent rewrite, twice, is the same as doing it once |
| Config.NoProxyKeysIndependent | config.py:29-35 | the two keys are each set from their own earlier value; both exist afterwards and no other key changes |
| Config.EnsureNoProxyIdempotent | config.py:28-35 | running the start-up fix-up a second time leaves the environment as the first run left it |
| Config.RembgModelPath | config.py:15 | the configured model path is stripped, and it is empty when the variable is unset |
| Text.Trim | config.py:15 | `str.strip` gives a result that starts and ends with a non-space character, or is empty |
| Text.TrimIsStrip | config.py:15 | stripping removes exactly the whitespace at both ends: the result is a slice of the text with only whitespace before and after it |
| Text.LowerExtUpper | compress_tools.py:24-25 | the lower-cased extension of a path does not depend on the case of the path |
| Text.TrimIdempotent | config.py:31 | stripping twice is stripping once |
| Text.TrimNoSpaceEnds | config.py:31 | text with no surrounding whitespace is left unchanged by stripping |
| Text.Split | config.py:31 | `str.split` on a character gives at least one piece, and no piece contains the separator |
| Text.JoinSplit | config.py:31-35 | joining the pieces of a split with the same separator restores the text |
| Text.SplitJoin | config.py:35 | splitting a join of separator-free pieces gives back the pieces |
| Text.Lower | file_utils.py:131 | lowering keeps the length and leaves no upper-case letter |
| Text.Upper | compress_tools.py:19 | upper-casing keeps the length and leaves no lower-case letter |
| Text.IntToDecimal | resize_tools.py:86 | the decimal text of an integer is non-empty, all digits exactly for non-negative numbers and led by `-` exactly for negative ones |
| Text.DecimalRoundTrip | file_utils.py:151 | reading back the decimal text of any integer gives that integer |
| Text.RFindIsLast | compress_tools.py:24 | the position found is the last occurrence of the character |
| Text.Basename | resize_tools.py:69 | the base name is the part of the path after its last `/` |
| Text.SplitExt | compress_tools.py:24 | `os.path.splitext` cuts the path into stem and extension; the extension is empty or one dot followed by no dot and no `/` |
| Text.Stem | resize_tools.py:69 | the base of an output name contains no `/` and is a prefix of the file's base name |
| Text.PathJoin | rembg_tools.py:78 | `os.path.join` ends with the second part and puts exactly one `/` between the parts in the ordinary case |
| FileUtils.FileToPath | file_utils.py:16-46 | `None` gives no path and a string is its own path; a dict gives only a non-empty string under "path"; an object's `.path` wins, and its `str()` is used only when that path exists |
| FileUtils.NormalizeFiles | file_utils.py:49-60 | the loop keeps, in order, the paths of the handles that resolve to a non-empty, existing path |
| FileUtils.KeptMembers | file_utils.py:56-59 | a path is kept exactly when some handle resolves to it, it is not empty and it exists |
| FileUtils.KeptUsable | file_utils.py:56-59 | at most one path per handle is kept, and each kept path is non-empty and exists |
| FileUtils.NormalizeShapes | file_utils.py:50-54 | a falsy argument gives no paths, and a single non-list handle is treated as a one-element list |
| FileUtils.ToPil | file_utils.py:64-81 | `None` raises "Empty image", images pass through, a dict is replaced by its "image" entry, and lists and other objects raise |
| FileUtils.PlanSave | file_utils.py:84-104 | JPEG flattens onto a canvas of the background colour exactly when the image has alpha or transparency and otherwise converts to RGB keeping its canvas colour; WEBP keeps the image; PNG converts to RGBA only outside RGBA/RGB/LA/L; quality is used only by JPEG and WEBP |
| FileUtils.SaveImageBytes | file_utils.py:84-104 | the bytes are the encoding of the save plan, which depends on the format name only up to case; a missing name means PNG and JPG means JPEG |
| FileUtils.EncoderForCases | file_utils.py:85-88 | the format name is read case-insensitively; JPG and JPEG both select JPEG, and an empty format selects PNG |
| FileUtils.ApplyBackground | file_utils.py:157-164 | the result is an RGB canvas of the same size filled with the given colour; images with alpha or transparency are pasted through their alpha |
| FileUtils.PadToTarget | file_utils.py:167-178 | the canvas has the target size; an image already that size is returned as it is; otherwise the canvas is RGBA filled with the pad colour, with the image converted to its paste mode |
| FileUtils.PadCentres | file_utils.py:171-172 | the image is pasted at the floored centre offsets, and lies inside the canvas when it fits |
| FileUtils.ZoomImage | file_utils.py:220-234 | no zoom above 1 keeps the source, and a cached output is reused |
| FileUtils.ZoomScales | file_utils.py:226-232 | a rendered zoom image has the source's size multiplied by the zoom |
| FileUtils.EditorFitImage | file_utils.py:199-217 | a missing or non-positive bound keeps the source, and a rendered image was encoded as PNG |
| FileUtils.EditorFitBounds | file_utils.py:204-215 | an image that already fits is kept; a rendered one fits the bounds, is no larger than the source and touches a bound |
| FileUtils.ZipBytes | file_utils.py:107-114 | there is no archive exactly when there are no files; otherwise the archive holds every file in order |
| FileUtils.HexChunk | file_utils.py:144 | `int(chunk, 16)` of a two-character chunk is between -15 and 255 when it succeeds |
| FileUtils.PickColor | file_utils.py:123-154 | a full triple is used as it is and a partial one gives the default; a missing name gives the default; black, gray or grey, and white, once stripped and lower-cased, name their fixed colours |
| FileUtils.PickColorNormalises | file_utils.py:131 | colour names are stripped and lowered before they are read |
| FileUtils.LongHexColour | file_utils.py:138-146 | `#rrggbb` gives the three hexadecimal byte values |
| FileUtils.ShortHexColour | file_utils.py:140-141 | `#rgb` reads as the colour with each digit doubled |
| FileUtils.OtherHexLength | file_utils.py:138-154 | a `#` followed by a hex-digit run of any other length gives the default |
| FileUtils.SignedHexAccepted | file_utils.py:142-144 | `int(..., 16)` accepts signed chunks, so `#-1-1-1` reads as (-1, -1, -1) and does not fall back to the default |
| FileUtils.FloatOfDecimal | file_utils.py:151 | `int(float(t))` of the decimal text of an integer no larger than 2^53 in magnitude is that integer |
| FileUtils.RgbBranch | file_utils.py:147-153 | `rgb(...)` takes its first three comma-separated parts, and any part that does not read gives the default |
| FileUtils.RgbColour | file_utils.py:147-151 | `rgb(a,b,c)` written with integers no larger than 2^53 in magnitude reads back as (a, b, c) |
| Imaging.Convert | file_utils.py:91 | conversion keeps the size and the canvas colour and sets the mode |
| Imaging.ThumbnailFits | file_utils.py:213 | a thumbnail never exceeds the box or the original, and is the original or touches the box |
| Imaging.ContainFits | resize_tools.py:39 | a contained image fits the box and touches one of its sides |
| Imaging.Thumbnail | resize_tools.py:29-30 | a thumbnail fits the box, is no larger than the image and keeps its mode |
| Imaging.Contain | resize_tools.py:39 | a contained image fits the box, fills one side and keeps its mode |
| Imaging.FitExact | resize_tools.py:36 | `ImageOps.fit` gives exactly the box |
| Imaging.Centred | resize_tools.py:40-43 | the pad canvas has the box size and is filled with the pad colour, and the content sits at the floored centre |
| Imaging.CentredInside | resize_tools.py:41-43 | centred content that fits lies wholly inside the canvas |
| Batch.Outcomes | resize_tools.py:68-92 | one outcome per input, in input order, each the step applied to its input |
| Batch.RunBatch | resize_tools.py:64-94 | the loop collecting gallery, archive entries and log lines returns exactly the summary of the outcomes |
| Batch.Successes | resize_tools.py:87-91 | the gallery is never longer than the inputs, and is as long when every input produced an output |
| Batch.Failures | resize_tools.py:82 | every log line starts with `[` |
| Batch.OutcomesCounted | resize_tools.py:68-92 | every input contributes exactly one output or one log line |
| Batch.SuccessesAreProduced | resize_tools.py:87-91 | an entry is in the gallery exactly when some input produced it |
| Batch.NoFailureMeansAllProduced | resize_tools.py:94 | the log is empty of failures exactly when every input produced an output |
| Batch.JoinedLinesNotOk | resize_tools.py:94 | a non-empty log of failure lines is never the text "OK" |
| Batch.Summary | resize_tools.py:87-94 | there is no archive exactly when nothing succeeded, the archive holds the gallery, and the log is "OK" exactly when nothing failed, else the failure lines joined |
| Batch.SingleInput | resize_tools.py:93-94 | one success gives a one-entry gallery and archive with "OK"; one failure gives its log line alone |
| Resize.ResizeOne | resize_tools.py:18-46 | the result is RGBA; Fit stays within the box and the image; Crop, Pad and forced Fit give exactly the box; Pad centres content that touches a side; an unknown mode keeps the size; a box side below 1 fails for the three modes; Pad fills its canvas with the pad colour, and the modes that do not pad keep the image's canvas colour |
| Resize.PadInside | resize_tools.py:38-44 | padded content lies inside the canvas |
| Resize.FitExactCentres | resize_tools.py:28-32 | forced Fit pads the thumbnail to the box with it centred inside, on the pad colour unless the thumbnail already fills the box |
| Resize.PadColourSaved | resize_tools.py:38-44 | a Pad output is saved on the pad colour whatever the format, since a JPEG flattens onto the same colour |
| Resize.ResizeItem | resize_tools.py:68-86 | a failure is logged under the input's base with "resize/export failed: ", and an output is named base_WxH_mode.ext |
| Resize.ResizeJobFor | resize_tools.py:63 | the pad colour is parsed once, with white as default |
| Resize.BatchResize | resize_tools.py:49-94 | no usable inputs gives "No input files."; otherwise the summary of resizing each input in order |
| Resize.ResizeItemUnreadable | resize_tools.py:71-83 | an input that does not open yields exactly one log line and no output |
| Resize.ResizeOutputsNamed | resize_tools.py:85-87 | every output is named after one of the inputs |
| Compress.ResolveCompressFormat | compress_tools.py:16-31 | an explicit choice wins; otherwise the result is JPG, PNG or WEBP, taken from the image format, then the extension, then PNG |
| Compress.FormatCaseInsensitive | compress_tools.py:19 | the image format is compared without regard to case |
| Compress.ExtensionFallback | compress_tools.py:24-31 | with an automatic or empty choice and no usable image format, the result is JPG exactly for `.jpg` and `.jpeg`, WEBP exactly for `.webp`, and PNG for every other extension |
| Compress.ExtensionCaseInsensitive | compress_tools.py:24-25 | the resolved format does not depend on the case of the path |
| Compress.ExtensionUpperCase | compress_tools.py:24-26 | an upper-case `.JPEG` extension selects JPG |
| Compress.ExtensionLast | compress_tools.py:24-30 | only the last extension counts, and an image format the encoder does not know is passed over |
| Compress.ExtensionHiddenFile | compress_tools.py:24-31 | a leading dot of a file name starts no extension, so PNG is used |
| Compress.ExtensionUnknown | compress_tools.py:31 | an unknown extension gives PNG |
| Compress.MenuResolves | compress_tools.py:16-31 | every menu entry resolves to a format the encoder knows |
| Compress.CompressItem | compress_tools.py:49-61 | failures are logged with "compress/export failed: "; an output is named base_compressed.ext in the resolved format |
| Compress.CompressItemEncodes | compress_tools.py:52-54 | an output is the image encoded in the resolved format onto the chosen background |
| Compress.BatchCompress | compress_tools.py:34-65 | no usable inputs gives "No input files."; otherwise the summary of compressing each input in order |
| Rembg.InsertSorted | rembg_tools.py:22 | inserting into a sorted list keeps it sorted |
| Rembg.SortNamesSorted | rembg_tools.py:22 | `sorted` gives a sorted permutation of the names |
| Rembg.RembgModelsSpec | rembg_tools.py:21-22 | the model list is sorted and holds exactly the session names that are not excluded |
| Rembg.ModelChoices | rembg_tools.py:23-26 | the menu starts with the automatic entry, has the custom entry next exactly when a model path is set, and then the models |
| Rembg.SessionKey | rembg_tools.py:34-37 | the key is the model name, except for the custom model, whose key is `u2net_custom:` followed by its path, or by `None` when there is none |
| Rembg.CustomKeyInjective | rembg_tools.py:34-37 | custom sessions with different paths never share a key |
| Rembg.ResolveChoice | rembg_tools.py:40-49 | automatic or empty picks the custom model when a path is set and u2net otherwise; custom without a path fails with "REMBG_MODEL_PATH is not set."; any other name is used as given |
| Rembg.SessionCache.GetSession | rembg_tools.py:52-74 | the cache's new state and the answer are exactly those of one session step, and the error and session maps stay disjoint |
| Rembg.SessionStep | rembg_tools.py:52-74 | a request never drops or replaces a cached session or a recorded error |
| Rembg.StoredErrorSticky | rembg_tools.py:55-56 | a recorded error is raised again without touching the cache |
| Rembg.CachedSessionReused | rembg_tools.py:57-58 | a cached session is returned as it is |
| Rembg.UnknownModelNotSticky | rembg_tools.py:59-60 | an unknown model fails without being recorded |
| Rembg.ConstructionRecorded | rembg_tools.py:61-74 | a new session is stored under its key on success, and its error is stored on failure |
| Rembg.StepKeepsDisjoint | rembg_tools.py:52-74 | no key is ever both cached and failed |
| Rembg.FailureSticky | rembg_tools.py:72-74 | once construction fails, every later request for that key fails with the same text, whatever the machine offers then |
| Rembg.ListModelsStatus | rembg_tools.py:81-89 | the loop splits the models, in order, into those with a local file and those without |
| Rembg.StatusPartition | rembg_tools.py:81-89 | the two lists together are a permutation of the models, and each lands on the side its file's presence dictates |
| Rembg.CutJobFor | rembg_tools.py:178-179 | the fill colour defaults to the parsed JPEG background |
| Rembg.CutImage | rembg_tools.py:189-191 | the cut image keeps the input's size, and is RGB on the fill colour when filled and RGBA otherwise |
| Rembg.CutItem | rembg_tools.py:184-205 | failures are logged with "remove-bg/export failed: "; an output is named base_nobg.ext |
| Rembg.CutBackground | rembg_tools.py:189-197 | a JPEG of an unfilled cut is flattened onto the JPEG background, and a filled cut is already opaque; either way the JPEG's background is the fill colour when filling and the JPEG background otherwise |
| Rembg.CutFillSaved | rembg_tools.py:189-197 | a filled cut is saved on the fill colour in every format |
| Rembg.BatchRemoveBg | rembg_tools.py:160-208 | no usable inputs gives "No input files." and leaves the cache alone; a session failure aborts the batch with "rembg session failed: "; otherwise the summary of cutting each input with the colours picked from the raw arguments |
| Masks.Binarize | inpaint_tools.py:115 | a pixel becomes 255 exactly when its luminance exceeds 10 and 0 otherwise |
| Masks.BinarizeFixesBinary | inpaint_tools.py:115 | a binary mask is left unchanged |
| Masks.BinarizeIdempotent | inpaint_tools.py:115 | binarising twice is binarising once |
| Masks.SourceIndex | inpaint_tools.py:117 | a nearest-neighbour sample always lies inside the source |
| Masks.NearestResize | inpaint_tools.py:116-117 | the resized mask has the target size, and each pixel is copied from its nearest source pixel |
| Masks.NearestKeepsBinary | inpaint_tools.py:115-117 | resizing a binary mask keeps it binary |
| Masks.NearestSameSize | inpaint_tools.py:116-117 | resizing to the mask's own size changes nothing |
| Masks.ExtractEditorMask | inpaint_tools.py:86-121 | `None` has no mask; a mask found is binary and has the target size when one is given |
| Masks.MaskSource | inpaint_tools.py:90-112 | a first layer that opens is the source; a payload that is not a dict, or a dict with neither layers nor mask, is tried itself; when nothing opens the payload itself did not open |
| Masks.MaskSourceIsFirst | inpaint_tools.py:90-112 | the mask comes from the first candidate that opens: the first layer, its "image", the "mask" entry, then the value itself |
| Masks.NoMaskIffAllFail | inpaint_tools.py:86-112 | there is no mask exactly when every candidate fails to open |
| Masks.SecondLayerAttemptRedundant | inpaint_tools.py:95-98 | when the first layer does not open, its "image" entry does not open either |
| Masks.GetMaskOverride | inpaint_tools.py:164-172 | no map gives nothing; the integer key is tried first, then its decimal text |
| Masks.SaveZoomMask | inpaint_tools.py:193-195 | without a selected index the map is returned unchanged and the panel closes |
| Masks.SaveThenGet | inpaint_tools.py:196-206 | a saved mask is the one later looked up for its slot, it is binary, and every other entry is kept; with no mask the map is unchanged and the panel stays open |
| Masks.ResetMaskOverrides | inpaint_tools.py:213-214 | after a reset no slot has a saved mask |
| Inpaint.LamaFormDefaults | inpaint_tools.py:22-67 | the form has all 39 fields, and the crop size fields are the image's size in decimal |
| Inpaint.FormKeys | inpaint_tools.py:27-67 | every field is sent under its own key, in the listed order |
| Inpaint.FormSizeIndependent | inpaint_tools.py:27-67 | every field other than the crop size is the same for every image |
| Inpaint.FormatExc | inpaint_tools.py:217-224 | the text is "Type: message" with the message stripped, or "Type: repr" when the message is blank or `str()` raises |
| Inpaint.FormatExcNormalises | inpaint_tools.py:217-224 | whitespace around the message never shows, and a blank message falls back to the representation |
| Inpaint.StatusError | inpaint_tools.py:81-82 | a refused request raises a RuntimeError |
| Inpaint.LamaInpaint | inpaint_tools.py:70-83 | an undecodable image raises before any request; the form uses the image's size; status 200 gives the body, and any other status raises |
| Inpaint.StatusErrorText | inpaint_tools.py:82 | a refusal is reported as "RuntimeError: /inpaint failed STATUS: " followed by at most 800 characters of the body, stripped |
| Inpaint.ChosenMask | inpaint_tools.py:253-255 | a saved zoom mask wins over the slot's drawn mask |
| Inpaint.Export | inpaint_tools.py:267-275 | export failures are logged with "export failed: "; an output is named base_clean.ext |
| Inpaint.InpaintItem | inpaint_tools.py:243-277 | failures are logged under the input's base; an output is named base_clean.ext |
| Inpaint.Attempts | inpaint_tools.py:281-282 | only inputs with an editor slot are attempted, each paired with its index |
| Inpaint.BatchInpaint | inpaint_tools.py:227-288 | no usable inputs gives "No input files."; otherwise the summary over the first eight slots of the inputs that have one |
| Inpaint.BatchInpaintAccounts | inpaint_tools.py:232-282 | at most `EDITOR_SLOTS` inputs are attempted, each gives one output or one log line, and outputs are named after their input |
| Inpaint.OverridePreferred | inpaint_tools.py:253-277 | with a saved mask the editor slots do not matter, and the item is inpainted with that mask |
| Inpaint.EditorFilePath | inpaint_tools.py:124-131 | the editor's file is a non-empty, existing path, and a value that is not a dict has none |
| Inpaint.EditorFilePathIsFirst | inpaint_tools.py:125-131 | the editor's file is the first of "background", "composite", "image" that names an existing file, and there is none exactly when no key does |
| Inpaint.SinglePath | inpaint_tools.py:302-309 | the path chosen is non-empty, and is the file-list entry at the index, the single handle, or the editor's file; an empty file list leaves the editor's file |
| Inpaint.ListEntryWins | inpaint_tools.py:303-304 | a usable file-list entry at the index wins over the editor |
| Inpaint.EntryUnresolvedFallback | inpaint_tools.py:303-309 | a file-list entry at the index that gives no path or an empty one leaves the editor's file |
| Inpaint.HandleWins | inpaint_tools.py:305-306 | a truthy single handle with a non-empty path wins over the editor |
| Inpaint.HandleUnresolvedFallback | inpaint_tools.py:305-309 | a single handle that gives no path or an empty one leaves the editor's file |
| Inpaint.EditorPathFallback | inpaint_tools.py:302-309 | with no file-list entry at the index, the editor's file is used |
| Inpaint.EditorImageBytes | inpaint_tools.py:134-161 | a `None` editor gives no image bytes, and a value that is not a dict is read as a PNG of itself |
| Inpaint.KeyBytes | inpaint_tools.py:139-155 | a `None` entry is skipped; an entry naming an existing, readable file gives that file's bytes; any other entry gives its PNG |
| Inpaint.EditorImageBytesIsFirst | inpaint_tools.py:137-161 | the bytes come from the first of "background", "composite", "image" that yields any, and from the whole value as a PNG when none does |
| Inpaint.InpaintBytes | inpaint_tools.py:326-357 | a finished run is named base_clean.ext, comes with a one-entry archive and logs "OK" |
| Inpaint.InpaintSingle | inpaint_tools.py:291-357 | the output is named after the input file, or `editor_N` for slot N when there is none; no usable file and no editor image gives "No input file." |

## Left out

- Unicode: `str.strip`, `lower` and `upper` are modelled on ASCII whitespace and ASCII letters only.
- FileUtils.FileToPath: the fallback to `str()` covers objects only; `str()` of bytes, lists and images never names an existing path here, and a non-string "path" entry of a dict is taken as no path.
- FileUtils.Truthy: every object other than `None`, strings, bytes, dicts and lists is taken as truthy.
- FileUtils.ToPil: path-like objects and numpy arrays are not distinguished from other objects and images respectively.
- FileUtils.RgbColour: holds for components up to 2^53 in magnitude only; larger integers are rounded to a double by `float()` in the source and not in the model, and components beyond the double range (which the source turns into `inf` and then the default colour) are read as exact integers.
- FileUtils.FloatOfDecimal: `float()` is modelled as exact decimal arithmetic truncated toward zero, accepting an optional sign and `digits.digits`; the rounding to the nearest double of integers beyond 2^53 and of long fractions, overflow to `inf`, exponents, `inf` and `nan` are not modelled, so the lemma is stated for integers a double holds exactly.
- FileUtils.PickColor: tuples and lists of a length other than 3 are not modelled (the source raises on them in `.strip()`); a list of 3 is modelled by components that either are integers or make `int()` fail.
- FileUtils.SignedHexAccepted: states the behaviour as written; `int(..., 16)` accepts a sign and surrounding whitespace, so colours such as `#-1-1-1` give out-of-range components.
- Imaging.Thumbnail: sizes are the floor of the scaled size; PIL rounds, and the LANCZOS filter and pixel contents are not modelled.
- Imaging.Contain: sizes are floors of the scaled size; PIL rounds. The scaled side is also clamped to at least 1 pixel, which `ImageOps.contain` does not do: a 10000x1 image padded to 100x100 succeeds in the model, while PIL computes a height of 0 and fails the resize.
- Masks.SourceIndex: nearest-neighbour sampling is the ideal `floor((i + 1/2) * src / dst)`; PIL's floating-point rounding is not modelled.
- Resize.ResizeOne: a box side below one pixel is a failure whose text is the parameter `sizeError`; PIL's exact exception is not modelled.
- Mask PNG bytes: masks and saved overrides are kept as pixel grids, not encoded PNG bytes.
- Codecs: decoding, `convert("L")` and encoding are parameters of `World`; only the decisions taken before encoding (`SavePlan`) are modelled.
- Canvas colours: an image records only the one colour its `Image.new` canvas was filled with (`ground`), not where pasted content covers it; the pad canvas's alpha of 255 is implied by that colour being opaque.
- Gallery previews: `_write_preview` and the uuid names of preview and zip files are not modelled; the gallery holds the entries and the archive holds its entry list.
- Zoom and fit cache paths (`_editor_zoom_path`, `_editor_fit_path`): md5 and mtime names are given as the parameter `out`.
- Inpaint.BatchInpaint: items run one after the other in index order; the source runs them concurrently under a semaphore of `MAX_CONCURRENCY`, so its gallery and log follow completion order, a permutation of this one.
- Inpaint.BatchInpaint: `args` shorter than `EDITOR_SLOTS + 2` (which makes the source raise an `IndexError`) is not modelled; the format and quality are given separately.
- Inpaint.LamaInpaint: the HTTP request, timeouts and the server address are the parameter `post`; the exception `_to_pil` raises on bad bytes is the parameter `decodeExc`.
- Inpaint.StatusError: the `repr` text of the raised error is approximated; it shows only when the message is blank, which cannot happen for this error.
- Inpaint.InpaintSingle: negative indices are not modelled (the index is a natural number); the UI `gr.update()` results are reduced to the status message.
- User-interface numbers: `int()` of the quality and size arguments is taken as done; they arrive as integers.
- Masks.SaveZoomMask: the zoom state's size is taken to be positive when present; `int()` of malformed states is not modelled.
- `_open_zoom_editor` and `_close_zoom_editor`: user-interface panel updates, not modelled.
- `_format_model_status` and `_download_rembg_model`: status text and network downloads, not modelled.
- rembg inference, `new_session` and the session classes: parameters (`remove`, `Backend`).
- `os.environ.setdefault` calls, directory creation and the settings read with `os.getenv` in `config.py` other than `REMBG_MODEL_PATH`: not modelled.
- Windows path rules for `os.path` functions: only POSIX `/` separators are modelled.
- `app.py`, `ui.py` and the `tools` package are not part of this model.
