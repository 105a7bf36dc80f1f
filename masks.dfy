/** The masks of the inpainting tool: where `_extract_editor_mask` finds the
    drawn mask, how it is binarised and brought to the image size, and the map
    of masks saved from the zoom editor. */
module Masks {
  import opened Wrappers
  import opened Text
  import opened Imaging
  import opened FileUtils

  // ---------------------------------------------------------------------------
  // Binarisation: `img.point(lambda x: 255 if x > 10 else 0)`

  function BinValue(v: int): int {
    if v > 10 then 255 else 0
  }

  /** Every pixel is 0 or 255. */
  predicate Binary(g: Gray) {
    forall y, x :: 0 <= y < |g.pixels| && 0 <= x < |g.pixels[y]| ==>
      g.pixels[y][x] == 0 || g.pixels[y][x] == 255
  }

  function BinRow(row: seq<int>): (r: seq<int>)
    ensures |r| == |row|
    ensures forall x :: 0 <= x < |row| ==> r[x] == BinValue(row[x])
  {
    seq(|row|, x requires 0 <= x < |row| => BinValue(row[x]))
  }

  /** The binarised mask: same size, a pixel is 255 exactly when it was above 10. */
  function Binarize(g: Luma): (r: Luma)
    ensures r.width == g.width && r.height == g.height
    ensures forall y, x :: 0 <= y < g.height && 0 <= x < g.width ==>
      (r.pixels[y][x] == 255 <==> g.pixels[y][x] > 10) && (r.pixels[y][x] == 0 <==> g.pixels[y][x] <= 10)
    ensures Binary(r)
  {
    Gray(g.width, g.height, seq(|g.pixels|, y requires 0 <= y < |g.pixels| => BinRow(g.pixels[y])))
  }

  /** Binarising a 0/255 mask leaves it as it is; so binarising is idempotent. */
  lemma BinarizeFixesBinary(g: Luma)
    requires Binary(g)
    ensures Binarize(g) == g
  {
    var r := Binarize(g);
    forall y | 0 <= y < g.height ensures r.pixels[y] == g.pixels[y] {
      assert RowOk(g.pixels[y], g.width);
    }
  }

  lemma BinarizeIdempotent(g: Luma)
    ensures Binarize(Binarize(g)) == Binarize(g)
  {
    BinarizeFixesBinary(Binarize(g));
  }

  // ---------------------------------------------------------------------------
  // Nearest-neighbour resize: `img.resize(target_size, Image.NEAREST)`

  /** The source position under the centre of target pixel `i`,
      `floor((i + 0.5) * src / dst)`. */
  function Centre(i: int, src: int, dst: Dim): int {
    ((2 * i + 1) * src) / (2 * dst)
  }

  /** The source index nearest-neighbour sampling reads for target index `i`. */
  function SourceIndex(i: nat, src: Dim, dst: Dim): (r: nat)
    requires i < dst
    ensures r < src
  {
    SourceBound(i, src, dst);
    Centre(i, src, dst)
  }

  lemma SourceBound(i: nat, src: Dim, dst: Dim)
    requires i < dst
    ensures 0 <= Centre(i, src, dst) < src
  {
    MulMono(0, 2 * i + 1, src);
    assert 2 * i + 1 < 2 * dst;
    assert (2 * i + 1) * src < (2 * dst) * src by { MulStrict(2 * i + 1, 2 * dst, src); }
    assert (2 * i + 1) * src < src * (2 * dst);
    DivBelow((2 * i + 1) * src, 2 * dst, src);
  }

  /** `n / d < q` whenever `n < q * d`. */
  lemma DivBelow(n: nat, d: Dim, q: nat)
    requires n < q * d
    ensures n / d < q
  {
    if n / d >= q {
      assert (n / d) * d >= q * d by { MulMono(q, n / d, d); }
      assert false;
    }
  }

  function SampledRow(row: seq<int>, src: Dim, tw: Dim): (r: seq<int>)
    requires |row| == src
    ensures |r| == tw
    ensures forall x :: 0 <= x < tw ==> r[x] == row[SourceIndex(x, src, tw)]
  {
    seq(tw, x requires 0 <= x < tw => row[SourceIndex(x, src, tw)])
  }

  /** The mask resampled to `tw` x `th`: each pixel copies the source pixel
      nearest to its centre. */
  function NearestResize(g: Luma, tw: Dim, th: Dim): (r: Luma)
    ensures r.width == tw && r.height == th
    ensures forall y, x :: 0 <= y < th && 0 <= x < tw ==>
      r.pixels[y][x] == g.pixels[SourceIndex(y, g.height, th)][SourceIndex(x, g.width, tw)]
  {
    var rows := seq(th, y requires 0 <= y < th =>
      assert RowOk(g.pixels[SourceIndex(y, g.height, th)], g.width);
      SampledRow(g.pixels[SourceIndex(y, g.height, th)], g.width, tw));
    assert forall y :: 0 <= y < th ==> RowOk(rows[y], tw) by {
      forall y | 0 <= y < th ensures RowOk(rows[y], tw) {
        var src := g.pixels[SourceIndex(y, g.height, th)];
        assert RowOk(src, g.width);
        forall x | 0 <= x < tw ensures IsByte(rows[y][x]) {
          assert rows[y][x] == src[SourceIndex(x, g.width, tw)];
        }
      }
    }
    Gray(tw, th, rows)
  }

  /** Resampling copies pixels, so a 0/255 mask stays a 0/255 mask. */
  lemma NearestKeepsBinary(g: Luma, tw: Dim, th: Dim)
    requires Binary(g)
    ensures Binary(NearestResize(g, tw, th))
  {
    var r := NearestResize(g, tw, th);
    forall y, x | 0 <= y < |r.pixels| && 0 <= x < |r.pixels[y]|
      ensures r.pixels[y][x] == 0 || r.pixels[y][x] == 255
    {
      assert RowOk(r.pixels[y], tw);
      var sy := SourceIndex(y, g.height, th);
      assert RowOk(g.pixels[sy], g.width);
    }
  }

  lemma SourceIndexSame(i: nat, n: Dim)
    requires i < n
    ensures SourceIndex(i, n, n) == i
  {
    assert (2 * i + 1) * n == i * (2 * n) + n;
    DivExact(i, 2 * n, n);
  }

  /** `(q * d + r) / d == q` for a remainder `0 <= r < d`. */
  lemma DivExact(q: nat, d: Dim, r: nat)
    requires r < d
    ensures (q * d + r) / d == q
  {
    var a := q * d + r;
    var k := a / d;
    assert a == k * d + a % d;
    if k < q {
      assert k * d + d <= q * d by { MulMono(k + 1, q, d); }
      assert false;
    } else if k > q {
      assert q * d + d <= k * d by { MulMono(q + 1, k, d); }
      assert false;
    }
  }

  lemma SampledRowSame(row: seq<int>, n: Dim)
    requires |row| == n
    ensures SampledRow(row, n, n) == row
  {
    forall x | 0 <= x < n ensures SampledRow(row, n, n)[x] == row[x] {
      SourceIndexSame(x, n);
    }
  }

  /** Resampling to the mask's own size changes nothing. */
  lemma NearestSameSize(g: Luma)
    ensures NearestResize(g, g.width, g.height) == g
  {
    var r := NearestResize(g, g.width, g.height);
    forall y | 0 <= y < g.height ensures r.pixels[y] == g.pixels[y] {
      SourceIndexSame(y, g.height);
      assert RowOk(g.pixels[y], g.width);
      SampledRowSame(g.pixels[y], g.width);
    }
  }

  /** `if target_size and img.size != target_size: img = img.resize(...)`. */
  function ToTarget(g: Luma, target: Option<(Dim, Dim)>): (r: Luma)
    ensures target.Some? ==> r.width == target.value.0 && r.height == target.value.1
    ensures target.None? ==> r == g
  {
    if target.Some? && (g.width, g.height) != target.value then NearestResize(g, target.value.0, target.value.1)
    else g
  }

  /** The whole per-pixel treatment: binarise, then bring to the target size. */
  function Prepare(g: Luma, target: Option<(Dim, Dim)>): (r: Luma)
    ensures Binary(r)
    ensures target.Some? ==> r.width == target.value.0 && r.height == target.value.1
  {
    var b := Binarize(g);
    if target.Some? && (b.width, b.height) != target.value then
      NearestKeepsBinary(b, target.value.0, target.value.1);
      ToTarget(b, target)
    else
      ToTarget(b, target)
  }

  // ---------------------------------------------------------------------------
  // Where the mask comes from

  /** `d.get(key)`: the entry, or `None`. */
  function Get(m: map<string, Value>, key: string): Value {
    if key in m then m[key] else NoneV
  }

  /** The image an attempt yields: `_to_pil(v)`, if it does not raise. */
  function Attempt(v: Value, w: World): Option<Img> {
    match ToPil(v, w)
    case Ok(img) => Some(img)
    case Err(_) => None
  }

  /** The first layer, when the payload has a non-empty list of layers. */
  function FirstLayer(m: map<string, Value>): Option<Value> {
    var layers := Get(m, "layers");
    if layers.List? && layers.items != [] then Some(layers.items[0]) else None
  }

  /** The image the mask is read from, tried as `_extract_editor_mask` does:
      the first layer, then that layer's "image" entry (only a dict has one),
      then the "mask" field when it is not `None`, then the payload itself. */
  function MaskSource(v: Value, w: World): (r: Option<Img>)
    ensures !v.Dict? ==> r == Attempt(v, w)
    ensures v.Dict? && FirstLayer(v.entries).Some? && Attempt(FirstLayer(v.entries).value, w).Some? ==>
      r == Attempt(FirstLayer(v.entries).value, w)
    ensures v.Dict? && FirstLayer(v.entries).None? && Get(v.entries, "mask") == NoneV ==> r == Attempt(v, w)
    ensures r.None? ==> Attempt(v, w).None?
  {
    var fromLayers: Option<Img> :=
      if v.Dict? && FirstLayer(v.entries).Some? then
        var layer := FirstLayer(v.entries).value;
        var first := Attempt(layer, w);
        if first.Some? then first
        else if layer.Dict? then Attempt(Get(layer.entries, "image"), w)
        else None
      else None;
    var fromMask: Option<Img> :=
      if fromLayers.None? && v.Dict? && Get(v.entries, "mask") != NoneV then Attempt(v.entries["mask"], w)
      else fromLayers;
    if fromMask.None? then Attempt(v, w) else fromMask
  }

  /** `_extract_editor_mask(editor_value, target_size)`: the pixels of the PNG
      it returns, or `None`. */
  function ExtractEditorMask(v: Value, target: Option<(Dim, Dim)>, w: World): (r: Option<Luma>)
    ensures v.NoneV? ==> r.None?
    ensures r.Some? ==> Binary(r.value)
    ensures r.Some? && target.Some? ==> r.value.width == target.value.0 && r.value.height == target.value.1
  {
    if v.NoneV? then None
    else
      match MaskSource(v, w)
      case None => None
      case Some(img) => Some(Prepare(w.luminance(img), target))
  }

  /** The same chain written as a list of candidates, in the order they are tried. */
  function MaskCandidates(v: Value): seq<Value> {
    var layers: seq<Value> :=
      if v.Dict? && FirstLayer(v.entries).Some? then
        var layer := FirstLayer(v.entries).value;
        [layer] + (if layer.Dict? then [Get(layer.entries, "image")] else [])
      else [];
    var mask: seq<Value> := if v.Dict? && Get(v.entries, "mask") != NoneV then [v.entries["mask"]] else [];
    layers + mask + [v]
  }

  /** The first candidate that yields an image. */
  function FirstImage(cands: seq<Value>, w: World): Option<Img> {
    if cands == [] then None
    else if Attempt(cands[0], w).Some? then Attempt(cands[0], w)
    else FirstImage(cands[1..], w)
  }

  lemma {:induction false} FirstImageConcat(a: seq<Value>, b: seq<Value>, w: World)
    ensures FirstImage(a + b, w) == if FirstImage(a, w).Some? then FirstImage(a, w) else FirstImage(b, w)
  {
    if a == [] {
      assert a + b == b;
    } else {
      assert (a + b)[0] == a[0] && (a + b)[1..] == a[1..] + b;
      FirstImageConcat(a[1..], b, w);
    }
  }

  /** The source of the mask is the first candidate that yields an image. */
  lemma MaskSourceIsFirst(v: Value, w: World)
    ensures MaskSource(v, w) == FirstImage(MaskCandidates(v), w)
  {
    var layers: seq<Value> :=
      if v.Dict? && FirstLayer(v.entries).Some? then
        var layer := FirstLayer(v.entries).value;
        [layer] + (if layer.Dict? then [Get(layer.entries, "image")] else [])
      else [];
    var mask: seq<Value> := if v.Dict? && Get(v.entries, "mask") != NoneV then [v.entries["mask"]] else [];
    assert MaskCandidates(v) == layers + mask + [v];
    FirstImageConcat(layers + mask, [v], w);
    FirstImageConcat(layers, mask, w);
    if layers != [] {
      var layer := FirstLayer(v.entries).value;
      var tail: seq<Value> := if layer.Dict? then [Get(layer.entries, "image")] else [];
      FirstImageConcat([layer], tail, w);
      assert [layer][1..] == [];
      if tail != [] { assert tail[1..] == []; }
    }
    if mask != [] { assert mask[1..] == []; }
    assert [v][1..] == [];
  }

  lemma {:induction false} FirstImageNone(cands: seq<Value>, w: World)
    ensures FirstImage(cands, w).None? <==> forall k :: 0 <= k < |cands| ==> ToPil(cands[k], w).Err?
  {
    if cands != [] {
      FirstImageNone(cands[1..], w);
      assert forall k :: 1 <= k < |cands| ==> cands[k] == cands[1..][k - 1];
    }
  }

  /** No mask is found exactly when no candidate yields an image. */
  lemma NoMaskIffAllFail(v: Value, target: Option<(Dim, Dim)>, w: World)
    requires !v.NoneV?
    ensures ExtractEditorMask(v, target, w).None? <==>
      forall k :: 0 <= k < |MaskCandidates(v)| ==> ToPil(MaskCandidates(v)[k], w).Err?
  {
    MaskSourceIsFirst(v, w);
    FirstImageNone(MaskCandidates(v), w);
  }

  /** The second attempt on the first layer never finds anything the first
      missed: `_to_pil` of a dict already looks at its "image" entry. */
  lemma SecondLayerAttemptRedundant(layer: Value, w: World)
    requires layer.Dict?
    requires Attempt(layer, w).None?
    ensures Attempt(Get(layer.entries, "image"), w).None?
  {
  }

  // ---------------------------------------------------------------------------
  // Saved zoom masks

  /** A key of the override map: the slot index as an `int` or as its `str`. */
  datatype Key = IntKey(n: int) | StrKey(s: string)

  type Overrides = map<Key, Luma>

  /** `_get_mask_override(mask_overrides, idx)`; `None` stands for an absent map. */
  function GetMaskOverride(o: Option<Overrides>, idx: int): (r: Option<Luma>)
    ensures o.None? || o.value == map[] ==> r.None?
    ensures o.Some? && IntKey(idx) in o.value ==> r == Some(o.value[IntKey(idx)])
    ensures o.Some? && IntKey(idx) !in o.value ==>
      r == (if StrKey(IntToDecimal(idx)) in o.value then Some(o.value[StrKey(IntToDecimal(idx))]) else None)
  {
    if o.None? || o.value == map[] then None
    else if IntKey(idx) in o.value then Some(o.value[IntKey(idx)])
    else if StrKey(IntToDecimal(idx)) in o.value then Some(o.value[StrKey(IntToDecimal(idx))])
    else None
  }

  /** The zoom editor's state: the slot index (`None` when missing or `None`)
      and the size of the image it was opened on, when known. */
  datatype ZoomState = ZoomState(index: Option<int>, size: Option<(Dim, Dim)>)

  /** What `_save_zoom_mask` returns: the override map, whether the zoom panel
      stays visible, and the status message. */
  datatype ZoomSave = ZoomSave(overrides: Overrides, visible: bool, message: string)

  /** `mask_overrides or {}`. */
  function OrEmpty(o: Option<Overrides>): Overrides {
    if o.None? then map[] else o.value
  }

  /** `_save_zoom_mask(zoom_editor_value, zoom_state, mask_overrides)`; `state`
      is `None` for an empty or missing state. */
  function SaveZoomMask(editor: Value, state: Option<ZoomState>, o: Option<Overrides>, w: World): (r: ZoomSave)
    ensures state.None? || state.value.index.None? ==> r == ZoomSave(OrEmpty(o), false, "未选择要放大的图片")
  {
    if state.None? || state.value.index.None? then ZoomSave(OrEmpty(o), false, "未选择要放大的图片")
    else
      var idx := state.value.index.value;
      match ExtractEditorMask(editor, state.value.size, w)
      case None => ZoomSave(OrEmpty(o), true, "没有检测到蒙版")
      case Some(mask) => ZoomSave(OrEmpty(o)[IntKey(idx) := mask], false, "已保存第 " + IntToDecimal(idx + 1) + " 张放大蒙版")
  }

  /** A saved mask is the one later looked up for its slot, is already binary
      and of the recorded size, and every other entry stays as it was; when
      nothing is detected the map is returned unchanged. */
  lemma SaveThenGet(editor: Value, idx: int, size: Option<(Dim, Dim)>, o: Option<Overrides>, w: World)
    ensures var r := SaveZoomMask(editor, Some(ZoomState(Some(idx), size)), o, w);
      var m := ExtractEditorMask(editor, size, w);
      (m.None? ==> r == ZoomSave(OrEmpty(o), true, "没有检测到蒙版")) &&
      (m.Some? ==>
        GetMaskOverride(Some(r.overrides), idx) == m && !r.visible &&
        r.overrides.Keys == OrEmpty(o).Keys + {IntKey(idx)} &&
        (forall k :: k in OrEmpty(o) && k != IntKey(idx) ==> r.overrides[k] == OrEmpty(o)[k]) &&
        Binary(r.overrides[IntKey(idx)]))
  {
  }

  /** `_reset_mask_overrides()`. */
  function ResetMaskOverrides(): (r: Overrides)
    ensures forall idx :: GetMaskOverride(Some(r), idx).None?
  {
    map[]
  }
}
