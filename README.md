# Document converter core, modelled in Dafny

This project models the two algorithmic cores of a small Streamlit document converter
(`app.py`).

- **Images to PDF** (`convert_images_to_pdf`). Each uploaded image gets one PDF page. With a
  preset paper size ("A4" 210×297 mm, "Carta" 215.9×279.4 mm), the image is scaled uniformly by
  `min((W-20)/w, (H-20)/h)` and centred. With "Usar tamaño original de la imagen", the page is the
  image's pixel size times 0.264583 mm, and the image fills it from (0,0). Module `ImageLayout`.
- **EPUB to one HTML document** (`convert_epub_to_pdf`, up to the renderer call). The steps are:
  - take the title and author, with the fallbacks "Sin título" and "Desconocido";
  - join the style items;
  - build the image map (file name → base64 payload);
  - flatten the table of contents into nested `<ul>/<li>` markup (module `Toc`);
  - rewrite each chapter: add a body id derived from the file name, and inline images as
    `data:` URLs (module `Chapters`, with the in-place markup edits on class `Soup`);
  - concatenate cover, index, chapters and index inside one document shell with a single
    `<style>` block (module `EpubAssembly`).

`Text` holds the string helpers (join, last-occurrence search, ASCII lower-casing). `Wrappers` holds
`Option`/`Result`.

Lengths are exact `real`s. Base64 encoding and BeautifulSoup's serialisation are library calls.
They appear as function parameters (`b64`, `serialize`) of the assembly.

Some behaviour of the code is easy to misread. The model keeps it as the code has it:
- Index markup is not escaped: a title holding `</a></li><li><a href="#…">` reads like two links,
  so different TOC trees can give the same text (`Toc.MarkupIsAmbiguous`).
- Chapter anchors are not injective: `a.xhtml` and `a.html` both give `a` (`Chapters.AnchorsCollide`).
- Index links keep the TOC href with its extension (`#ch1.xhtml`), while the body id drops it
  (`ch1`), so the links do not reach the anchors (`EpubAssembly.IndexLinksKeepExtension`).
- The trailing index keeps its "Índice" heading, like the leading one.
- The US paper preset is called "Carta".
- With a preset size, an image with a zero pixel dimension makes the whole conversion fail
  (Python raises `ZeroDivisionError`). This is `Err(ZeroDivision(i))` for the first such image.
  Native-size mode has no guard.

## Model

| member | source | states |
|---|---|---|
| `ImageLayout.PresetDimensions` | app.py:31-34 | "A4" is exactly 210×297 mm and "Carta" 215.9×279.4 mm; both exceed the 20 mm margin |
| `ImageLayout.NativePage` | app.py:47-51 | native mode: the page is pixels × 0.264583 mm in each dimension, and the image sits at (0,0) with exactly the page's width and height |
| `ImageLayout.Min` | app.py:56 | Python's `min` of two numbers: no larger than either, and equal to one of them |
| `ImageLayout.Scale` | app.py:56 | `min((W-20)/w, (H-20)/h)`: the ratio is at most each of the two quotients and equals one of them |
| `ImageLayout.FittedPage` | app.py:53-61 | preset mode: the page is exactly (W,H); the image fits within W-20 and H-20, meets one of the two bounds exactly, keeps the pixel aspect ratio, is centred (x + w/2 = W/2, y + h/2 = H/2) with x, y ≥ 10, and has positive size |
| `ImageLayout.ScaleBounds` | app.py:55-58 | the scale `min((W-20)/w, (H-20)/h)` keeps both scaled dimensions within their bounds, reaches one of them, and is positive for the presets |
| `ImageLayout.ScaleIsLargestFit` | app.py:56 | every uniform scale that keeps the image inside the margins is at most the chosen scale, so the chosen scale is the largest that fits |
| `ImageLayout.PageFor` | app.py:36-61 | the size choice for one image: native mode gives the native page, a preset gives a page of the preset's dimensions; in both modes the image rectangle lies within the page |
| `ImageLayout.ConvertImagesToPdf` | app.py:30-61 | one page per image, in input order, each the page its size choice gives; preset pages all have the preset's (W,H); with a preset, a zero pixel dimension fails the whole batch at the first such image |
| `ImageLayout.A4LandscapeExample` | app.py:53-61 | an 800×600 image on A4 is placed at (10, 77.25) with size 190×142.5 mm |
| `Toc.FragmentText` | app.py:129-135 | the text of one yielded fragment: a Link gives `<li><a href="#HREF">TITLE</a></li>`, a pair's link gives `<li><a href="#HREF">TITLE</a><ul>`, and the pair's end gives `</ul></li>`; every one has at least ten characters. How items turn into these fragments is stated by `Toc.LinkHtml` and `Toc.SectionHtml` |
| `Toc.FragmentSlots` | app.py:129-135 | in a link's fragment the href sits right after `<li><a href="#` and the title right after the following `">`; a plain link ends with `</a></li>`, a pair's link with `</a><ul>`, and the pair's end is exactly `</ul></li>` |
| `Toc.Yields` | app.py:126-135 | the `append_toc_items` generator: its fragments open and close list items in balance (as many openers as closers) |
| `Toc.ItemsHtml` | app.py:136 | `"".join(append_toc_items(items))`: the join of the yielded fragments' texts, empty exactly when the generator yields nothing |
| `Toc.TocHtml` | app.py:121-138 | `generate_toc_html`: with `with_title` set it opens with the `<h1>Índice</h1>\n` heading; then comes `<ul>\n`, the items' markup verbatim, and `\n</ul>\n` at the end |
| `Toc.LinkHtml` | app.py:128-129 | a Link emits exactly `<li><a href="#HREF">TITLE</a></li>` |
| `Toc.SectionHtml` | app.py:130-135 | a (link, children) pair emits its link's opener, then `<ul>`, then its children's markup in order, then `</ul></li>` |
| `Toc.OtherHtml` | app.py:127-135 | an item that is neither a Link nor a 2-tuple emits nothing |
| `Toc.ItemsHtmlAppend` | app.py:126-136 | the markup of a list of items is the markup of each item, in order |
| `Toc.ParseYields` | app.py:126-135 | reading back the generator's fragments gives the tree, minus the skipped items, and stops where those fragments end: the sequence of yielded fragments nests exactly as the tree does |
| `Toc.FlatteningReadsBack` | app.py:136 | the whole flattened TOC reads back completely, with no fragment left over |
| `Toc.MarkupIsAmbiguous` | app.py:129 | hrefs and titles go into the markup unescaped, so a single link whose title holds `</a></li><li><a href="#H">U` gives the same text as two links: the joined text does not determine the tree |
| `Text.Concat` | app.py:210 | `''.join(parts)`: nothing for no parts, the part itself for one part, and otherwise the first part is a prefix of the result |
| `Text.RFind` | app.py:160 | the last-occurrence search that `rsplit('.', 1)` performs here, and that `os.path.splitext` performs at app.py:167: the index of the last occurrence, or -1 exactly when there is none |
| `Chapters.Anchor` | app.py:160 | `rsplit('.', 1)[0]`: a name without a dot is unchanged; otherwise the result is the prefix before the name's last dot |
| `Chapters.AnchorsCollide` | app.py:160 | "a.xhtml" and "a.html" get the same anchor "a" |
| `Chapters.Extension` | app.py:167 | `os.path.splitext(src)[1]`: either empty or a suffix of the path, no longer than it, that starts with a dot |
| `Chapters.ExtensionShape` | app.py:167 | `os.path.splitext(src)[1]` is either empty or a suffix starting with its only dot and holding no '/'; it is empty exactly when no non-dot character precedes a dot in the last path part |
| `Chapters.MimeForExtension` | app.py:168-174 | the MIME type chosen from the extension never contains ';' |
| `Text.Lower` | app.py:167 | `.lower()` on ASCII: the same length, with each character lower-cased on its own |
| `Chapters.MimeType` | app.py:167-174 | the MIME type of an image path: the table applied to the lower-cased extension; it never contains ';' |
| `Chapters.MimeTypeIgnoresCase` | app.py:167 | the extension is lower-cased before matching, so the MIME type does not depend on the case of the path |
| `Chapters.MimeTypeUpperCaseExample` | app.py:167-170 | "img/a.JPG" gives image/jpeg |
| `Chapters.MimeTypeDotFileExample` | app.py:167-174 | "img/.png" has no extension and gives application/octet-stream |
| `Chapters.MimeTypeDirectoryDotExample` | app.py:167-174 | "a.d/photo" has no extension and gives application/octet-stream |
| `Chapters.DataUri` | app.py:175 | the new src `data:MIME;base64,PAYLOAD`: `data:`, the MIME type, `;base64,` and the payload at fixed places. That it reads back as its two parts is `Chapters.DataUriRoundTrip` |
| `Chapters.DataUriRoundTrip` | app.py:175 | `data:MIME;base64,PAYLOAD` splits back into the MIME type and the payload |
| `Chapters.AnchoredBody` | app.py:158-160 | a missing body stays missing, an existing id is never overwritten, and a body without an id gets the file's anchor |
| `Chapters.Inlinable` | app.py:166 | `src and src in images_map`: an img qualifies only with a src that is a key of the image map, and never with an empty src. What happens to each img is `Chapters.InlinedSrcMeaning` |
| `Chapters.InlinedSrc` | app.py:165-175 | an img src that is missing, empty or not an image-map key is kept; otherwise the new src starts with `data:` and ends with that key's payload |
| `Chapters.InlinedSrcMeaning` | app.py:164-175 | an img with no src, an empty src or a src that is not a map key is unchanged; otherwise its new src is a data URL that reads back as the path's MIME type and that key's payload |
| `Chapters.InlineAll` | app.py:163-175 | the img loop: one src per img; an img that does not qualify keeps its src, and one that does gets a `data:` URL |
| `Chapters.Rewritten` | app.py:158-175 | a chapter after both edits keeps its file name and number of imgs, has a body exactly when it had one, every body has an id, and an existing id is kept |
| `Chapters.Soup.constructor` | app.py:154-155 | the parsed chapter reads as the chapter record |
| `Chapters.Soup.AnchorBody` | app.py:158-160 | the body tag is changed in place exactly as `AnchoredBody` prescribes |
| `Chapters.Soup.InlineImages` | app.py:163-175 | every img's src is rewritten in place, in document order, exactly as `InlinedSrc` prescribes |
| `Chapters.ProcessChapter` | app.py:153-175 | a chapter comes out with its body anchored and its images inlined |
| `EpubAssembly.FirstOr` | app.py:101-104 | title/author is the first metadata value (kept even if empty), or the fallback when there is none |
| `EpubAssembly.TitleText` | app.py:103 | the first title value, or "Sin título" when the book has none |
| `EpubAssembly.AuthorText` | app.py:104 | the first creator value, or "Desconocido" when the book has none |
| `EpubAssembly.StyleSheet` | app.py:109-111 | the stylesheet has at least one character per style item and, when there is any item, ends with a newline |
| `EpubAssembly.StyleSheetIsJoin` | app.py:109-111 | the CSS is each style item's text followed by "\n", in item order |
| `EpubAssembly.BuildCss` | app.py:109-111 | the `+=` loop computes that stylesheet |
| `EpubAssembly.ImageMap` | app.py:115-117 | every image item's file name is a key of the map |
| `EpubAssembly.ImageMapKeys` | app.py:115-117 | the image map's keys are exactly the image items' file names |
| `EpubAssembly.ImageMapLastWins` | app.py:115-117 | each file name maps to the base64 of the last image item with that name |
| `EpubAssembly.BuildImageMap` | app.py:115-117 | the dictionary-filling loop computes that map |
| `EpubAssembly.Cover` | app.py:141-146 | the cover is the page-break-after `<div>` opening with the `<h1>` start, the title verbatim, the `</h1>` and `<h3>` tags, the author verbatim, then the `</h3>` and `</div>` closing, each at its fixed place |
| `EpubAssembly.LeadingIndex` | app.py:149 | the leading index is `generate_toc_html(book)` with its heading (the `with_title=True` default), verbatim between `<div style="page-break-after: always;">` and `</div>` |
| `EpubAssembly.TrailingIndex` | app.py:180 | the trailing index is the same `generate_toc_html(book)` markup, heading included, between `<div style="page-break-before: always;">` and `</div>` |
| `EpubAssembly.StyleBlock` | app.py:184-198 | the `<style>` block holds the book's stylesheet verbatim, followed by the fixed default rules up to `</style>` |
| `EpubAssembly.Shell` | app.py:201-212 | `html_final`: the doctype head, then the style block, then `<title>`, the title verbatim, the `</title></head><body>` markup, then the body text and the closing `</body></html>`, each at its fixed place |
| `EpubAssembly.ChapterParts` | app.py:153-177 | there is one serialised part per document item |
| `EpubAssembly.AppendChapters` | app.py:152-178 | the per-document loop appends one rewritten, serialised part per document item, in item order, after the parts already there |
| `EpubAssembly.BodyParts` | app.py:152-181 | `html_parts`: the cover, then the leading index, then one rewritten, serialised part per document item in item order, then the trailing index |
| `EpubAssembly.AssembledHtml` | app.py:200-212 | the whole document: the joined `html_parts` sit right before the closing `</body></html>` tail |
| `EpubAssembly.BodyOrder` | app.py:152-181 | the body text is cover, leading index, chapters in order, then trailing index |
| `EpubAssembly.AssemblyOrder` | app.py:141-212 | the document is: shell head, `<style>` with the book's CSS before the fixed rules, the title, the cover, the leading index, the rewritten chapters in item order, the trailing index (the same TOC markup), then the shell tail |
| `EpubAssembly.ChapterInPlace` | app.py:152-181 | in the joined `html_parts`, the i-th document item, rewritten and serialised, sits after the cover, the leading index and the chapters before it, and before the chapters after it and the trailing index |
| `EpubAssembly.AssembleDocument` | app.py:100-212 | the metadata, CSS, image-map and chapter loops produce exactly the assembled document |
| `EpubAssembly.IndexLinksKeepExtension` | app.py:129 | the index link for "ch1.xhtml" is `#ch1.xhtml`, while that chapter's body id is "ch1" |

## Left out

- The Streamlit interface (app.py:17-26, 245-279) is left out. The page-size selector is only the
  three-valued `PageSize`, so the `KeyError` of an unknown size cannot occur.
- PIL decoding and re-saving, temporary file paths, and the PDF bytes FPDF writes are left out.
  Only each page's size and image rectangle are modelled.
- FPDF's behaviour for an empty image list, or for a zero-size native page, is not modelled.
  The interface only calls the conversion with at least one image.
- Floating point is not modelled. Millimetres are exact reals, so the stated equalities hold
  exactly here but only approximately in IEEE doubles.
- Locating wkhtmltopdf is left out. So are its `FileNotFoundError`/`PermissionError` checks
  (app.py:72-88), the pdfkit options and footers, and the rendering itself (app.py:221-241).
- Reading the EPUB container (ebooklib) is left out. So is decoding item bytes as UTF-8, which
  can raise on a style item (app.py:111). A book is given as already-decoded values.
- The metadata entries are `(value, attributes)` pairs in the source. Only their values are
  modelled.
- BeautifulSoup parsing and serialisation are left out. A chapter is only its file name, its first
  `<body>` tag, and the `src` of each `<img>`. `serialize` stands for `str(soup)`.
- Base64 encoding (`base64.b64encode`) is not modelled. It is the parameter `b64`.
- `Chapters.MimeType`: lower-casing covers ASCII letters only. For the four recognised
  extensions this matches Python's `str.lower`.
- `Text.Lower`: lower-cases the ASCII letters only, unlike Python's Unicode-aware `str.lower`.
- `Chapters.Extension`: follows the POSIX rules of `os.path.splitext`. Windows' separators and
  drive letters are not modelled.
- Debug output (`dprint`) and the temporary HTML dump (app.py:68-70, 214-218) are left out.
