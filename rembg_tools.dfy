/** The background-removal tool: the model menu, the choice of model, the
    session cache with its sticky errors, the model status lists and
    `batch_remove_bg`. The rembg models themselves stay abstract. */
module Rembg {
  import opened Wrappers
  import opened Text
  import opened Imaging
  import opened FileUtils
  import opened Batch

  const REMBG_MODEL_AUTO: string := "auto (REMBG_MODEL_PATH / u2net)"
  const REMBG_MODEL_CUSTOM: string := "custom (REMBG_MODEL_PATH)"
  const REMBG_EXCLUDE_MODELS: set<string> := {"u2net_custom", "u2net_cloth_seg", "sam"}
  const CUSTOM_MODEL: string := "u2net_custom"

  // ---------------------------------------------------------------------------
  // The model menu

  /** Python's `<=` on strings: lexicographic on code points. */
  predicate StrLe(a: string, b: string)
    decreases |a|
  {
    if a == [] then true
    else if b == [] then false
    else if a[0] != b[0] then a[0] < b[0]
    else StrLe(a[1..], b[1..])
  }

  lemma {:induction false} StrLeTotal(a: string, b: string)
    ensures StrLe(a, b) || StrLe(b, a)
    decreases |a|
  {
    if a != [] && b != [] && a[0] == b[0] {
      StrLeTotal(a[1..], b[1..]);
    }
  }

  /** Each name is no greater than the next. */
  predicate Sorted(s: seq<string>) {
    forall i :: 0 <= i < |s| - 1 ==> StrLe(s[i], s[i + 1])
  }

  /** `x` put before the first element it does not exceed. */
  function Insert(x: string, s: seq<string>): (r: seq<string>)
    ensures multiset(r) == multiset(s) + multiset{x}
    ensures |r| == |s| + 1 && (r[0] == x || (s != [] && r[0] == s[0]))
  {
    if s == [] then [x]
    else if StrLe(x, s[0]) then [x] + s
    else
      assert s == [s[0]] + s[1..];
      [s[0]] + Insert(x, s[1..])
  }

  lemma {:induction false} InsertSorted(x: string, s: seq<string>)
    requires Sorted(s)
    ensures Sorted(Insert(x, s))
  {
    if s != [] && !StrLe(x, s[0]) {
      StrLeTotal(x, s[0]);
      assert Sorted(s[1..]) by {
        forall i | 0 <= i < |s[1..]| - 1 ensures StrLe(s[1..][i], s[1..][i + 1]) {
          assert s[1..][i] == s[i + 1] && s[1..][i + 1] == s[i + 2];
        }
      }
      InsertSorted(x, s[1..]);
      var t := Insert(x, s[1..]);
      var r := [s[0]] + t;
      assert StrLe(r[0], r[1]) by {
        if t[0] != x { assert t[0] == s[1]; }
      }
      forall i | 1 <= i < |r| - 1 ensures StrLe(r[i], r[i + 1]) {
        assert r[i] == t[i - 1] && r[i + 1] == t[i];
      }
    }
  }

  /** `sorted(names)`. */
  function SortNames(names: seq<string>): (r: seq<string>)
    ensures multiset(r) == multiset(names)
  {
    if names == [] then []
    else
      var init := names[..|names| - 1];
      assert names == init + [names[|names| - 1]];
      Insert(names[|names| - 1], SortNames(init))
  }

  lemma {:induction false} SortNamesSorted(names: seq<string>)
    ensures Sorted(SortNames(names))
  {
    if names != [] {
      SortNamesSorted(names[..|names| - 1]);
      InsertSorted(names[|names| - 1], SortNames(names[..|names| - 1]));
    }
  }

  /** `[m for m in names if m not in REMBG_EXCLUDE_MODELS]`. */
  function Eligible(names: seq<string>): (r: seq<string>)
    ensures forall k :: 0 <= k < |r| ==> r[k] !in REMBG_EXCLUDE_MODELS
    ensures forall m :: m in r <==> m in names && m !in REMBG_EXCLUDE_MODELS
  {
    if names == [] then []
    else
      var rest := Eligible(names[1..]);
      assert names == [names[0]] + names[1..];
      if names[0] in REMBG_EXCLUDE_MODELS then rest else [names[0]] + rest
  }

  /** `REMBG_MODELS`, built from the session names rembg provides. */
  function RembgModels(sessionNames: seq<string>): seq<string> {
    SortNames(Eligible(sessionNames))
  }

  /** The models are sorted, none of them is excluded, and every other session
      name is there as often as rembg lists it. */
  lemma RembgModelsSpec(sessionNames: seq<string>)
    ensures var r := RembgModels(sessionNames);
      Sorted(r) && multiset(r) == multiset(Eligible(sessionNames)) &&
      (forall m :: m in r <==> m in sessionNames && m !in REMBG_EXCLUDE_MODELS)
  {
    SortNamesSorted(Eligible(sessionNames));
    var r := RembgModels(sessionNames);
    forall m ensures m in r <==> m in Eligible(sessionNames) {
      assert m in r <==> m in multiset(r);
      assert m in Eligible(sessionNames) <==> m in multiset(Eligible(sessionNames));
    }
  }

  /** `REMBG_MODEL_CHOICES`: the automatic entry, the custom one when a model
      path is configured, then the models. */
  function ModelChoices(modelPath: string, sessionNames: seq<string>): (r: seq<string>)
    ensures |r| >= 1 && r[0] == REMBG_MODEL_AUTO
    ensures modelPath != "" ==> |r| >= 2 && r[1] == REMBG_MODEL_CUSTOM && r[2..] == RembgModels(sessionNames)
    ensures modelPath == "" ==> r[1..] == RembgModels(sessionNames)
  {
    [REMBG_MODEL_AUTO] + (if modelPath != "" then [REMBG_MODEL_CUSTOM] else []) + RembgModels(sessionNames)
  }

  // ---------------------------------------------------------------------------
  // Choosing a model

  /** `_rembg_session_key(model_name, model_path)`: the custom model is keyed
      by its path (`str(None)` is "None"), every other model by its name. */
  function SessionKey(name: string, path: Option<string>): (r: string)
    ensures name != CUSTOM_MODEL ==> r == name
    ensures name == CUSTOM_MODEL ==> CUSTOM_MODEL + ":" <= r
    ensures name == CUSTOM_MODEL ==> r == CUSTOM_MODEL + ":" + (if path.Some? then path.value else "None")
  {
    if name == CUSTOM_MODEL then name + ":" + (if path.Some? then path.value else "None") else name
  }

  /** Two custom models share a session exactly when they share the path. */
  lemma CustomKeyInjective(p: string, q: string)
    ensures SessionKey(CUSTOM_MODEL, Some(p)) == SessionKey(CUSTOM_MODEL, Some(q)) <==> p == q
  {
    var pre := CUSTOM_MODEL + ":";
    if SessionKey(CUSTOM_MODEL, Some(p)) == SessionKey(CUSTOM_MODEL, Some(q)) {
      assert p == (pre + p)[|pre|..] && q == (pre + q)[|pre|..];
    }
  }

  /** `_resolve_rembg_choice(model_choice)` for the configured model path. */
  function ResolveChoice(choice: Option<string>, modelPath: string): (r: Result<(string, Option<string>)>)
    ensures r.Err? <==> choice == Some(REMBG_MODEL_CUSTOM) && modelPath == ""
    ensures r.Err? ==> r.msg == "REMBG_MODEL_PATH is not set."
    ensures r.Ok? && r.value.1.Some? ==> r.value == (CUSTOM_MODEL, Some(modelPath)) && modelPath != ""
    ensures (choice.None? || choice.value == "" || choice.value == REMBG_MODEL_AUTO) ==>
      r == Ok(if modelPath != "" then (CUSTOM_MODEL, Some(modelPath)) else ("u2net", None))
    ensures (choice.Some? && choice.value != "" && choice.value != REMBG_MODEL_AUTO &&
             choice.value != REMBG_MODEL_CUSTOM) ==> r == Ok((choice.value, None))
  {
    if choice.None? || choice.value == "" || choice.value == REMBG_MODEL_AUTO then
      if modelPath != "" then Ok((CUSTOM_MODEL, Some(modelPath))) else Ok(("u2net", None))
    else if choice.value == REMBG_MODEL_CUSTOM then
      if modelPath == "" then Err("REMBG_MODEL_PATH is not set.") else Ok((CUSTOM_MODEL, Some(modelPath)))
    else
      Ok((choice.value, None))
  }

  // ---------------------------------------------------------------------------
  // The session cache

  /** A constructed rembg session: the model and the model path it was
      created for, and which construction it came from. */
  datatype Session = Session(model: string, path: Option<string>, id: nat)

  /** What the cache consults: the model names rembg has a session class for,
      the regular files, and `new_session`, which may raise. */
  datatype Backend = Backend(classes: set<string>, files: set<string>,
                             create: (string, Option<string>) -> Result<Session>)

  /** The two module-level dictionaries `_REMBG_SESSIONS` and `_REMBG_SESSION_ERRS`. */
  datatype CacheState = CacheState(sessions: map<string, Session>, errs: map<string, string>)

  /** No key has both a session and an error. */
  predicate Disjoint(st: CacheState) {
    st.sessions.Keys !! st.errs.Keys
  }

  /** The construction in the `try` block of `_get_rembg_session`. */
  function Construct(name: string, path: Option<string>, be: Backend): Result<Session> {
    if name == CUSTOM_MODEL then
      if path.None? || path.value == "" then Err("REMBG_MODEL_PATH is not set.")
      else if path.value !in be.files then Err("REMBG_MODEL_PATH not found: " + path.value)
      else be.create(CUSTOM_MODEL, path)
    else be.create(name, None)
  }

  /** One call of `_get_rembg_session(model_choice)`: its outcome and the cache after it. */
  function SessionStep(st: CacheState, choice: Option<string>, modelPath: string, be: Backend)
    : (r: (Result<Session>, CacheState))
    ensures forall k :: k in st.sessions ==> k in r.1.sessions && r.1.sessions[k] == st.sessions[k]
    ensures forall k :: k in st.errs ==> k in r.1.errs && r.1.errs[k] == st.errs[k]
  {
    match ResolveChoice(choice, modelPath)
    case Err(e) => (Err(e), st)
    case Ok((name, path)) =>
      var key := SessionKey(name, path);
      if key in st.errs then (Err(st.errs[key]), st)
      else if key in st.sessions then (Ok(st.sessions[key]), st)
      else if name != CUSTOM_MODEL && name !in be.classes then (Err("Unknown model: " + name), st)
      else
        match Construct(name, path, be)
        case Ok(s) => (Ok(s), st.(sessions := st.sessions[key := s]))
        case Err(e) => (Err(e), st.(errs := st.errs[key := e]))
  }

  /** The key a choice is cached under. */
  function KeyOf(choice: Option<string>, modelPath: string): Option<string> {
    match ResolveChoice(choice, modelPath)
    case Err(_) => None
    case Ok((name, path)) => Some(SessionKey(name, path))
  }

  /** A stored error is raised again without any new construction. */
  lemma StoredErrorSticky(st: CacheState, choice: Option<string>, modelPath: string, be: Backend)
    requires KeyOf(choice, modelPath).Some? && KeyOf(choice, modelPath).value in st.errs
    ensures SessionStep(st, choice, modelPath, be) == (Err(st.errs[KeyOf(choice, modelPath).value]), st)
  {
  }

  /** A cached session is handed out again and neither map changes. */
  lemma CachedSessionReused(st: CacheState, choice: Option<string>, modelPath: string, be: Backend)
    requires Disjoint(st)
    requires KeyOf(choice, modelPath).Some? && KeyOf(choice, modelPath).value in st.sessions
    ensures SessionStep(st, choice, modelPath, be) == (Ok(st.sessions[KeyOf(choice, modelPath).value]), st)
  {
  }

  /** An unknown model is refused before the `try` block, so the refusal is
      not remembered and a later call may succeed. */
  lemma UnknownModelNotSticky(st: CacheState, name: string, modelPath: string, be: Backend)
    requires name != "" && name != REMBG_MODEL_AUTO && name != REMBG_MODEL_CUSTOM && name != CUSTOM_MODEL
    requires name !in st.errs && name !in st.sessions && name !in be.classes
    ensures SessionStep(st, Some(name), modelPath, be) == (Err("Unknown model: " + name), st)
  {
  }

  /** A construction that succeeds touches only the sessions, one that fails
      only the errors; either way the key ends up in exactly one map. */
  lemma ConstructionRecorded(st: CacheState, choice: Option<string>, modelPath: string, be: Backend)
    requires Disjoint(st)
    requires ResolveChoice(choice, modelPath).Ok?
    ensures var (name, path) := ResolveChoice(choice, modelPath).value;
      var key := SessionKey(name, path);
      var r := SessionStep(st, choice, modelPath, be);
      key !in st.errs && key !in st.sessions && (name == CUSTOM_MODEL || name in be.classes) ==>
        (r.0.Ok? ==> r.0 == Construct(name, path, be) &&
                     r.1 == CacheState(st.sessions[key := r.0.value], st.errs)) &&
        (r.0.Err? ==> r.0 == Construct(name, path, be) &&
                      r.1 == CacheState(st.sessions, st.errs[key := r.0.msg]))
  {
  }

  /** No key is ever both cached and failed. */
  lemma StepKeepsDisjoint(st: CacheState, choice: Option<string>, modelPath: string, be: Backend)
    requires Disjoint(st)
    ensures Disjoint(SessionStep(st, choice, modelPath, be).1)
  {
  }

  /** Once the construction for a choice has failed, every later call with that
      choice raises the same message, whatever the backend has become. */
  lemma FailureSticky(st: CacheState, choice: Option<string>, modelPath: string, be: Backend, later: Backend)
    requires Disjoint(st)
    requires ResolveChoice(choice, modelPath).Ok?
    requires var name := ResolveChoice(choice, modelPath).value.0; name == CUSTOM_MODEL || name in be.classes
    requires SessionStep(st, choice, modelPath, be).0.Err?
    ensures var first := SessionStep(st, choice, modelPath, be);
      var key := KeyOf(choice, modelPath).value;
      key in first.1.errs && first.1.errs[key] == first.0.msg &&
      SessionStep(first.1, choice, modelPath, later) == (first.0, first.1)
  {
  }

  /** The session cache of the module, with its two dictionaries as fields. */
  class SessionCache {
    var sessions: map<string, Session>
    var errs: map<string, string>

    predicate Valid()
      reads this
    {
      Disjoint(CacheState(sessions, errs))
    }

    constructor ()
      ensures sessions == map[] && errs == map[]
      ensures Valid()
    {
      sessions := map[];
      errs := map[];
    }

    /** `_get_rembg_session(model_choice)`. */
    method GetSession(choice: Option<string>, modelPath: string, be: Backend) returns (r: Result<Session>)
      requires Valid()
      modifies this
      ensures Valid()
      ensures (r, CacheState(sessions, errs)) == SessionStep(CacheState(old(sessions), old(errs)), choice, modelPath, be)
    {
      StepKeepsDisjoint(CacheState(sessions, errs), choice, modelPath, be);
      var resolved := ResolveChoice(choice, modelPath);
      if resolved.Err? {
        return Err(resolved.msg);
      }
      var (name, path) := resolved.value;
      var key := SessionKey(name, path);
      if key in errs {
        return Err(errs[key]);
      }
      if key in sessions {
        return Ok(sessions[key]);
      }
      if name != CUSTOM_MODEL && name !in be.classes {
        return Err("Unknown model: " + name);
      }
      var made := Construct(name, path, be);
      if made.Ok? {
        sessions := sessions[key := made.value];
      } else {
        errs := errs[key := made.msg];
      }
      r := made;
    }
  }

  // ---------------------------------------------------------------------------
  // Model status

  /** `_model_local_path(name)`: `<models dir>/<name>.onnx`. */
  function ModelLocalPath(modelsDir: string, name: string): string {
    PathJoin(modelsDir, name + ".onnx")
  }

  /** The models whose file is (or is not, for `present == false`) on disk, in order. */
  function ModelsWhere(models: seq<string>, modelsDir: string, files: set<string>, present: bool): seq<string> {
    if models == [] then []
    else
      var rest := ModelsWhere(models[..|models| - 1], modelsDir, files, present);
      var m := models[|models| - 1];
      if (ModelLocalPath(modelsDir, m) in files) == present then rest + [m] else rest
  }

  /** `_list_rembg_models_status()`. */
  method ListModelsStatus(models: seq<string>, modelsDir: string, files: set<string>)
    returns (downloaded: seq<string>, missing: seq<string>)
    ensures downloaded == ModelsWhere(models, modelsDir, files, true)
    ensures missing == ModelsWhere(models, modelsDir, files, false)
  {
    downloaded, missing := [], [];
    for i := 0 to |models|
      invariant downloaded == ModelsWhere(models[..i], modelsDir, files, true)
      invariant missing == ModelsWhere(models[..i], modelsDir, files, false)
    {
      assert models[..i + 1][..i] == models[..i];
      if ModelLocalPath(modelsDir, models[i]) in files {
        downloaded := downloaded + [models[i]];
      } else {
        missing := missing + [models[i]];
      }
    }
    assert models[..|models|] == models;
  }

  /** Each model lands in exactly one of the two lists. */
  lemma {:induction false} StatusMultiset(models: seq<string>, modelsDir: string, files: set<string>)
    ensures multiset(ModelsWhere(models, modelsDir, files, true)) + multiset(ModelsWhere(models, modelsDir, files, false))
            == multiset(models)
  {
    if models != [] {
      var init := models[..|models| - 1];
      StatusMultiset(init, modelsDir, files);
      assert models == init + [models[|models| - 1]];
    }
  }

  /** Whether the file of model `name` is on disk. */
  predicate OnDisk(modelsDir: string, files: set<string>, name: string) {
    ModelLocalPath(modelsDir, name) in files
  }

  /** Every model of `w` has its file on disk, or every one lacks it. */
  predicate AllOnDisk(w: seq<string>, modelsDir: string, files: set<string>, present: bool) {
    forall k :: 0 <= k < |w| ==> OnDisk(modelsDir, files, w[k]) == present
  }

  /** A list holds only models whose file's presence is the one it stands for. */
  lemma {:induction false} StatusSide(models: seq<string>, modelsDir: string, files: set<string>, present: bool)
    ensures AllOnDisk(ModelsWhere(models, modelsDir, files, present), modelsDir, files, present)
  {
    if models != [] {
      var init := models[..|models| - 1];
      var m := models[|models| - 1];
      var rest := ModelsWhere(init, modelsDir, files, present);
      StatusSide(init, modelsDir, files, present);
      var w := ModelsWhere(models, modelsDir, files, present);
      if OnDisk(modelsDir, files, m) == present {
        assert w == rest + [m];
        forall k | 0 <= k < |w| ensures OnDisk(modelsDir, files, w[k]) == present {
          if k < |rest| {
            assert w[k] == rest[k];
          }
        }
      }
    }
  }

  /** The two lists split the models: each model lands in exactly one of them,
      in the list its file's presence says. */
  lemma StatusPartition(models: seq<string>, modelsDir: string, files: set<string>)
    ensures var d := ModelsWhere(models, modelsDir, files, true);
      var m := ModelsWhere(models, modelsDir, files, false);
      multiset(d) + multiset(m) == multiset(models) &&
      (forall k :: 0 <= k < |d| ==> ModelLocalPath(modelsDir, d[k]) in files) &&
      (forall k :: 0 <= k < |m| ==> ModelLocalPath(modelsDir, m[k]) !in files)
  {
    StatusMultiset(models, modelsDir, files);
    StatusSide(models, modelsDir, files, true);
    StatusSide(models, modelsDir, files, false);
    var d := ModelsWhere(models, modelsDir, files, true);
    var m := ModelsWhere(models, modelsDir, files, false);
    assert AllOnDisk(d, modelsDir, files, true) && AllOnDisk(m, modelsDir, files, false);
  }

  // ---------------------------------------------------------------------------
  // batch_remove_bg

  /** The settings of one `batch_remove_bg` call: the output format and
      quality, the JPG background and the fill colour (both already picked),
      and whether to fill the background. */
  datatype CutJob = CutJob(format: string, quality: int, jpgColor: Rgb, fill: bool, fillColor: Rgb)

  /** The colours `batch_remove_bg` picks: the JPG background defaults to
      white, the fill colour to the JPG background. */
  function CutJobFor(format: string, quality: int, jpgBg: ColorArg, fill: bool, fillColor: ColorArg): (r: CutJob)
    ensures r.jpgColor == PickColor(jpgBg, WHITE) && r.fillColor == PickColor(fillColor, r.jpgColor)
  {
    var jpg := PickColor(jpgBg, WHITE);
    CutJob(format, quality, jpg, fill, PickColor(fillColor, jpg))
  }

  /** The image `batch_remove_bg` saves for a cut-out: RGBA, flattened onto the
      fill colour when filling. */
  function CutImage(img: Img, job: CutJob): (r: Img)
    ensures r.width == img.width && r.height == img.height
    ensures r.mode == (if job.fill then "RGB" else "RGBA")
    ensures r.ground == (if job.fill then Some(job.fillColor) else img.ground)
  {
    var rgba := Convert(img, "RGBA");
    if job.fill then ApplyBackground(rgba, job.fillColor).image else rgba
  }

  /** The background handed to `_save_image_bytes`. */
  function SaveBackground(job: CutJob): Rgb {
    if job.fill then job.fillColor else job.jpgColor
  }

  /** One pass of the loop body of `batch_remove_bg` on the input at `p`, with
      rembg's `remove` given as `remove`. */
  function CutItem(world: World, session: Session, remove: (Bytes, Session) -> Result<Bytes>,
                   job: CutJob, p: string): (r: Outcome)
    ensures r.Failed? ==> r.base == Stem(p) && "remove-bg/export failed: " <= r.reason
    ensures r.Produced? ==> r.entry.0 == Stem(p) + "_nobg." + ExtOf(job.format)
  {
    var base := Stem(p);
    var fail := "remove-bg/export failed: ";
    match world.read(p)
    case Err(e) => Failed(base, fail + e)
    case Ok(raw) =>
      match remove(raw, session)
      case Err(e) => Failed(base, fail + e)
      case Ok(cut) =>
        match ToPil(Raw(cut), world)
        case Err(e) => Failed(base, fail + e)
        case Ok(img) =>
          match SaveImageBytes(world, CutImage(img, job), job.format, job.quality, SaveBackground(job))
          case Err(e) => Failed(base, fail + e)
          case Ok(bytes) => Produced((base + "_nobg." + ExtOf(job.format), bytes))
  }

  /** Which background a JPEG output ends up on: with filling, the image is
      already flat RGB on the fill colour and needs no further flattening;
      without, the transparent cut-out is flattened onto the JPG background. */
  lemma CutBackground(img: Img, job: CutJob)
    requires EncoderFor(job.format) == Jpeg
    ensures var plan := PlanSave(CutImage(img, job), job.format, job.quality, SaveBackground(job));
      plan.background == (if job.fill then None else Some(job.jpgColor)) && plan.image.mode == "RGB"
    ensures var plan := PlanSave(CutImage(img, job), job.format, job.quality, SaveBackground(job));
      plan.image.ground == Some(if job.fill then job.fillColor else job.jpgColor)
  {
  }

  /** A filled cut-out is saved on the fill colour whatever the output format. */
  lemma CutFillSaved(img: Img, job: CutJob)
    requires job.fill
    ensures var plan := PlanSave(CutImage(img, job), job.format, job.quality, SaveBackground(job));
      plan.image.ground == Some(job.fillColor)
  {
  }

  /** `batch_remove_bg(...)`. When the session cannot be had, the batch stops
      before any input is touched, with that error as its only log line. */
  method BatchRemoveBg(cache: SessionCache, world: World, files: Value,
                       format: string, quality: int, jpgBg: ColorArg, fill: bool, fillColor: ColorArg,
                       choice: Option<string>, modelPath: string, be: Backend,
                       remove: (Bytes, Session) -> Result<Bytes>)
    returns (r: BatchResult)
    requires cache.Valid()
    modifies cache
    ensures cache.Valid()
    ensures var paths := Kept(Candidates(files), world.existing);
      var before := CacheState(old(cache.sessions), old(cache.errs));
      var step := SessionStep(before, choice, modelPath, be);
      if paths == [] then
        r == NO_INPUT && cache.sessions == old(cache.sessions) && cache.errs == old(cache.errs)
      else
        CacheState(cache.sessions, cache.errs) == step.1 &&
        r == match step.0
             case Err(e) => BatchResult([], None, "rembg session failed: " + e)
             case Ok(s) =>
               Summary(Outcomes(paths, p => CutItem(world, s, remove, CutJobFor(format, quality, jpgBg, fill, fillColor), p)))
  {
    var paths := NormalizeFiles(files, world.existing);
    if paths == [] {
      return NO_INPUT;
    }
    var session := cache.GetSession(choice, modelPath, be);
    if session.Err? {
      return BatchResult([], None, "rembg session failed: " + session.msg);
    }
    var s := session.value;
    var job := CutJobFor(format, quality, jpgBg, fill, fillColor);
    r := RunBatch(paths, p => CutItem(world, s, remove, job, p));
  }
}
