/** What the tools need to know about a PIL image. The pixels of colour images
    and the encoders stay abstract; the tools only decide sizes, modes and
    paste offsets, and the masks of the inpainting tool are luminance grids. */
module Imaging {

  import opened Wrappers

  /** A dimension of a decoded image or of a canvas: at least one pixel. */
  type Dim = x: int | x >= 1 witness 1

  /** A bitmap as the tools see it: width, height, PIL mode ("RGBA", "RGB",
      "LA", "L", "P", ...), whether its `info` holds a "transparency" entry, the
      container format it was decoded from ("" when PIL reports none), and, for
      an `Image.new` canvas and what is derived from it, the colour the canvas
      was filled with, which shows wherever nothing opaque was pasted. */
  datatype Img = Img(width: Dim, height: Dim, mode: string, transparency: bool, format: string,
                     ground: Option<Rgb>)

  /** An RGB colour triple as `_pick_color` returns it (components unchecked). */
  datatype Rgb = Rgb(r: int, g: int, b: int)

  const WHITE: Rgb := Rgb(255, 255, 255)

  /** A greyscale ("L" mode) bitmap: `height` rows of `width` luminance values. */
  datatype Gray = Gray(width: Dim, height: Dim, pixels: seq<seq<int>>)

  predicate IsByte(v: int) {
    0 <= v <= 255
  }

  predicate RowOk(row: seq<int>, width: int) {
    |row| == width && forall x :: 0 <= x < |row| ==> IsByte(row[x])
  }

  predicate WellFormed(g: Gray) {
    |g.pixels| == g.height && forall y :: 0 <= y < |g.pixels| ==> RowOk(g.pixels[y], g.width)
  }

  /** What `img.convert("L")` yields. */
  type Luma = g: Gray | WellFormed(g) witness Gray(1, 1, [[0]])

  /** A mode whose pixels carry an alpha channel. */
  predicate HasAlpha(img: Img) {
    img.mode == "RGBA" || img.mode == "LA"
  }

  /** `img.convert(mode)`: same size, new mode; the converted image carries no
      "transparency" entry and no container format. */
  function Convert(img: Img, mode: string): (r: Img)
    ensures r.width == img.width && r.height == img.height && r.mode == mode
    ensures !r.transparency && r.ground == img.ground
  {
    Img(img.width, img.height, mode, false, "", img.ground)
  }

  /** `Image.new(mode, (w, h), colour)`. */
  function Blank(mode: string, w: Dim, h: Dim, colour: Rgb): (r: Img)
    ensures r.width == w && r.height == h && r.mode == mode && !r.transparency
    ensures r.ground == Some(colour)
  {
    Img(w, h, mode, false, "", Some(colour))
  }

  function Min(a: int, b: int): int {
    if a <= b then a else b
  }

  function Max(a: int, b: int): int {
    if a >= b then a else b
  }

  // ---------------------------------------------------------------------------
  // Geometry of PIL's resizing helpers

  /** The size `img.thumbnail((w, h))` leaves: unchanged when the image already
      fits, otherwise scaled down, aspect kept, until it fits. */
  function ThumbnailSize(iw: Dim, ih: Dim, w: Dim, h: Dim): (r: (Dim, Dim))
  {
    if iw <= w && ih <= h then (iw, ih)
    else if iw * h >= ih * w then (w, Max(1, ih * w / iw))
    else (Max(1, iw * h / ih), h)
  }

  /** The thumbnail fits the box, never grows the image, and touches the box
      on one side unless the image was left as it was. */
  lemma ThumbnailFits(iw: Dim, ih: Dim, w: Dim, h: Dim)
    ensures ThumbnailSize(iw, ih, w, h).0 <= Min(iw, w)
    ensures ThumbnailSize(iw, ih, w, h).1 <= Min(ih, h)
    ensures ThumbnailSize(iw, ih, w, h) == (iw, ih) ||
            ThumbnailSize(iw, ih, w, h).0 == w || ThumbnailSize(iw, ih, w, h).1 == h
  {
    if !(iw <= w && ih <= h) {
      if iw * h >= ih * w {
        WidthBound(iw, ih, w, h);
      } else {
        WidthBound(ih, iw, h, w);
      }
    }
  }

  /** The arithmetic behind one branch of the thumbnail: the image is wider than
      the box in proportion, so the width is the binding side. */
  lemma WidthBound(iw: Dim, ih: Dim, w: Dim, h: Dim)
    requires !(iw <= w && ih <= h)
    requires iw * h >= ih * w
    ensures w < iw
    ensures ih * w / iw <= h && ih * w / iw <= ih
  {
    if iw <= w {
      assert ih > h;
      assert iw * h <= w * h by { MulMono(iw, w, h); }
      assert w * h < w * ih by { MulStrict(h, ih, w); }
      assert false;
    }
    assert ih * w <= h * iw;
    DivBound(ih * w, iw, h);
    assert ih * w < ih * iw by { MulStrict(w, iw, ih); }
    DivBound(ih * w, iw, ih);
  }

  lemma MulMono(a: int, b: int, c: nat)
    requires a <= b
    ensures a * c <= b * c
  {
  }

  lemma MulStrict(a: int, b: int, c: Dim)
    requires a < b
    ensures c * a < c * b
  {
  }

  /** `n / d <= q` whenever `n <= q * d`. */
  lemma DivBound(n: nat, d: Dim, q: nat)
    requires n <= q * d
    ensures n / d <= q
  {
  }

  /** The size `ImageOps.contain(img, (w, h))` produces: scaled up or down,
      aspect kept, as large as fits in the box. */
  function ContainSize(iw: Dim, ih: Dim, w: Dim, h: Dim): (r: (Dim, Dim))
  {
    if iw * h > ih * w then (w, Max(1, ih * w / iw))
    else if iw * h < ih * w then (Max(1, iw * h / ih), h)
    else (w, h)
  }

  /** The contained image fits the box and fills it along one side. */
  lemma ContainFits(iw: Dim, ih: Dim, w: Dim, h: Dim)
    ensures ContainSize(iw, ih, w, h).0 <= w && ContainSize(iw, ih, w, h).1 <= h
    ensures ContainSize(iw, ih, w, h).0 == w || ContainSize(iw, ih, w, h).1 == h
  {
    if iw * h > ih * w {
      DivBound(ih * w, iw, h);
    } else if iw * h < ih * w {
      DivBound(iw * h, ih, w);
    }
  }

  /** `img.thumbnail((w, h))` on an image, as `_resize_one` and
      `_make_editor_image` use it. */
  function Thumbnail(img: Img, w: Dim, h: Dim): (r: Img)
    ensures r.width <= w && r.height <= h
    ensures r.width <= img.width && r.height <= img.height
    ensures r.mode == img.mode
  {
    ThumbnailFits(img.width, img.height, w, h);
    var s := ThumbnailSize(img.width, img.height, w, h);
    Img(s.0, s.1, img.mode, img.transparency, img.format, img.ground)
  }

  /** `ImageOps.contain(img, (w, h))`. */
  function Contain(img: Img, w: Dim, h: Dim): (r: Img)
    ensures r.width <= w && r.height <= h
    ensures r.width == w || r.height == h
    ensures r.mode == img.mode
  {
    ContainFits(img.width, img.height, w, h);
    var s := ContainSize(img.width, img.height, w, h);
    Img(s.0, s.1, img.mode, false, "", img.ground)
  }

  /** `ImageOps.fit(img, (w, h))`: scaled and centre-cropped to exactly the box. */
  function FitExact(img: Img, w: Dim, h: Dim): (r: Img)
    ensures r.width == w && r.height == h && r.mode == img.mode
  {
    Img(w, h, img.mode, false, "", img.ground)
  }

  /** `img.resize((w, h))`. */
  function Resized(img: Img, w: Dim, h: Dim): (r: Img)
    ensures r.width == w && r.height == h && r.mode == img.mode
  {
    Img(w, h, img.mode, img.transparency, "", img.ground)
  }

  // ---------------------------------------------------------------------------
  // Pasting

  /** An output image together with the image pasted on it and the top-left
      corner it was pasted at. An image returned as it is, is its own content
      at (0, 0). */
  datatype Canvas = Canvas(image: Img, content: Img, x: int, y: int)

  function Plain(img: Img): (r: Canvas)
    ensures r.image == img && r.content == img && r.x == 0 && r.y == 0
  {
    Canvas(img, img, 0, 0)
  }

  /** A `(w, h)` RGBA canvas filled with `colour` and `content` pasted at the
      centre offset `((w - cw) // 2, (h - ch) // 2)` (Python's floor division). */
  function Centred(content: Img, w: Dim, h: Dim, colour: Rgb): (r: Canvas)
    ensures r.image.width == w && r.image.height == h && r.image.mode == "RGBA"
    ensures r.image.ground == Some(colour)
    ensures r.content == content
    ensures 2 * r.x == w - content.width || 2 * r.x == w - content.width - 1
    ensures 2 * r.y == h - content.height || 2 * r.y == h - content.height - 1
  {
    Canvas(Blank("RGBA", w, h, colour), content, (w - content.width) / 2, (h - content.height) / 2)
  }

  /** Content no larger than the canvas lies wholly inside it. */
  lemma CentredInside(content: Img, w: Dim, h: Dim, colour: Rgb)
    requires content.width <= w && content.height <= h
    ensures 0 <= Centred(content, w, h, colour).x && Centred(content, w, h, colour).x + content.width <= w
    ensures 0 <= Centred(content, w, h, colour).y && Centred(content, w, h, colour).y + content.height <= h
  {
  }
}
