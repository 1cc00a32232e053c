/** Page layout of the "images to PDF" conversion: one page per image, either a fixed paper
    size with the image scaled to fit inside a 20 mm total margin and centred, or a page cut
    to the image's own size at 96 dpi. Millimetres are exact reals here. */
module ImageLayout {
  import opened Wrappers

  /** The three choices of the page-size selector: "A4", "Carta" and
      "Usar tamaño original de la imagen". */
  datatype PageSize = A4 | Carta | Original

  /** A decoded raster image, by its pixel size. */
  datatype Image = Image(widthPx: nat, heightPx: nat)

  /** One PDF page with its one image: page size, then the image rectangle, all in mm. */
  datatype Page = Page(width: real, height: real, x: real, y: real, w: real, h: real)

  /** The division by a zero pixel dimension, raised at the image with this index. */
  datatype LayoutError = ZeroDivision(index: nat)

  /** Millimetres per pixel (96 dpi). */
  const PxToMm: real := 0.264583

  /** Total margin subtracted from each page dimension (10 mm per side). */
  const Margin: real := 20.0

  predicate Positive(img: Image)
  {
    img.widthPx > 0 && img.heightPx > 0
  }

  /** The preset paper sizes in millimetres (width, height). */
  function PresetDimensions(size: PageSize): (d: (real, real))
    requires size != Original
    ensures d.0 > Margin && d.1 > Margin
    ensures size == A4 ==> d == (210.0, 297.0)
    ensures size == Carta ==> d == (215.9, 279.4)
  {
    match size
    case A4 => (210.0, 297.0)
    case Carta => (215.9, 279.4)
  }

  /** Native-size page: the pixel size converted to mm; the image fills it from the origin. */
  function NativePage(img: Image): (p: Page)
    ensures p.width == img.widthPx as real * PxToMm && p.height == img.heightPx as real * PxToMm
    ensures p.x == 0.0 && p.y == 0.0 && p.w == p.width && p.h == p.height
  {
    var width := img.widthPx as real * PxToMm;
    var height := img.heightPx as real * PxToMm;
    Page(width, height, 0.0, 0.0, width, height)
  }

  /** min(a, b) as Python computes it: the first argument unless the second is smaller. */
  function Min(a: real, b: real): (m: real)
    ensures m <= a && m <= b
    ensures m == a || m == b
  {
    if b < a then b else a
  }

  /** The uniform scale min((W - 20) / w, (H - 20) / h). */
  function Scale(pageW: real, pageH: real, img: Image): (ratio: real)
    requires Positive(img)
    ensures ratio <= (pageW - Margin) / img.widthPx as real && ratio <= (pageH - Margin) / img.heightPx as real
    ensures ratio == (pageW - Margin) / img.widthPx as real || ratio == (pageH - Margin) / img.heightPx as real
  {
    Min((pageW - Margin) / img.widthPx as real, (pageH - Margin) / img.heightPx as real)
  }

  /** Fixed-size page: the image scaled uniformly to fit the area inside the margins, touching
      it in at least one dimension, keeping its aspect ratio, and centred on the page. */
  function FittedPage(pageW: real, pageH: real, img: Image): (p: Page)
    requires Positive(img)
    ensures p.width == pageW && p.height == pageH
    ensures p.w <= pageW - Margin && p.h <= pageH - Margin
    ensures p.w == pageW - Margin || p.h == pageH - Margin
    ensures p.w * img.heightPx as real == p.h * img.widthPx as real
    ensures p.x + p.w / 2.0 == pageW / 2.0 && p.y + p.h / 2.0 == pageH / 2.0
    ensures p.x >= Margin / 2.0 && p.y >= Margin / 2.0
    ensures pageW > Margin && pageH > Margin ==> p.w > 0.0 && p.h > 0.0
  {
    var ratio := Scale(pageW, pageH, img);
    var newW := img.widthPx as real * ratio;
    var newH := img.heightPx as real * ratio;
    ScaleBounds(pageW, pageH, img);
    Page(pageW, pageH, (pageW - newW) / 2.0, (pageH - newH) / 2.0, newW, newH)
  }

  /** The scale brings each dimension within its bound and meets at least one bound exactly. */
  lemma ScaleBounds(pageW: real, pageH: real, img: Image)
    requires Positive(img)
    ensures img.widthPx as real * Scale(pageW, pageH, img) <= pageW - Margin
    ensures img.heightPx as real * Scale(pageW, pageH, img) <= pageH - Margin
    ensures img.widthPx as real * Scale(pageW, pageH, img) == pageW - Margin
         || img.heightPx as real * Scale(pageW, pageH, img) == pageH - Margin
    ensures pageW > Margin && pageH > Margin ==> Scale(pageW, pageH, img) > 0.0
  {
  }

  /** No larger uniform scale keeps the image inside the margins. */
  lemma ScaleIsLargestFit(pageW: real, pageH: real, img: Image, s: real)
    requires Positive(img)
    requires img.widthPx as real * s <= pageW - Margin
    requires img.heightPx as real * s <= pageH - Margin
    ensures s <= Scale(pageW, pageH, img)
  {
  }

  /** The page the selected size gives one image: native size, or the preset fitted. Either
      way the image lies within the page. */
  function PageFor(size: PageSize, img: Image): (p: Page)
    requires size == Original || Positive(img)
    ensures size == Original ==> p == NativePage(img)
    ensures size != Original ==> (p.width, p.height) == PresetDimensions(size)
    ensures 0.0 <= p.x && p.x + p.w <= p.width && 0.0 <= p.y && p.y + p.h <= p.height
  {
    if size == Original then NativePage(img)
    else
      var (pageW, pageH) := PresetDimensions(size);
      FittedPage(pageW, pageH, img)
  }

  /** convert_images_to_pdf: one page per image, in order. With a preset size the first image
      that has a zero pixel dimension raises (division by zero) and no document results. */
  method ConvertImagesToPdf(images: seq<Image>, size: PageSize) returns (r: Result<seq<Page>, LayoutError>)
    ensures r.Ok? <==> (size == Original || forall i :: 0 <= i < |images| ==> Positive(images[i]))
    ensures r.Ok? ==> |r.value| == |images|
    ensures r.Ok? ==> forall i :: 0 <= i < |images| ==> r.value[i] == PageFor(size, images[i])
    ensures r.Ok? && size != Original ==> forall i :: 0 <= i < |images| ==>
              (r.value[i].width, r.value[i].height) == PresetDimensions(size)
    ensures r.Err? ==> size != Original && r.error.index < |images|
    ensures r.Err? ==> !Positive(images[r.error.index])
    ensures r.Err? ==> forall i :: 0 <= i < r.error.index ==> Positive(images[i])
  {
    var pages: seq<Page> := [];
    for i := 0 to |images|
      invariant |pages| == i
      invariant size != Original ==> forall j :: 0 <= j < i ==> Positive(images[j])
      invariant forall j :: 0 <= j < i ==> pages[j] == PageFor(size, images[j])
    {
      var img := images[i];
      if size == Original {
        pages := pages + [NativePage(img)];
      } else {
        var (pageW, pageH) := PresetDimensions(size);
        if !Positive(img) {
          return Err(ZeroDivision(i));
        }
        pages := pages + [FittedPage(pageW, pageH, img)];
      }
    }
    return Ok(pages);
  }

  /** An 800x600 image on A4: scaled by 190/800 to 190 x 142.5 mm, 10 mm from the sides and
      77.25 mm from the top. */
  lemma A4LandscapeExample()
    ensures PageFor(A4, Image(800, 600)) == Page(210.0, 297.0, 10.0, 77.25, 190.0, 142.5)
  {
  }
}
