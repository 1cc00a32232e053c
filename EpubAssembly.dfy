/** The e-book conversion's assembly of one self-contained HTML document from the parsed book:
    metadata with fallbacks, the book's stylesheets joined, the image map (file name to base64
    payload), a cover, the index before and after the chapters, and every chapter rewritten
    (body anchor, inline images), all inside one document shell with a single <style> block.
    Base64 encoding and the serialisation of a parsed chapter are library calls and are
    passed in as functions. */
module EpubAssembly {
  import opened Text
  import opened Toc
  import opened Chapters

  newtype Byte = x: int | 0 <= x < 256

  /** An image item of the book: its file name inside the container and its bytes. */
  datatype ImageItem = ImageItem(fileName: string, content: seq<Byte>)

  /** What the conversion reads from the book: the values of the DC title and creator entries,
      the text of each style item, the image items and the document items, all in the order
      the book lists them, and the navigation tree. */
  datatype Book = Book(
    titles: seq<string>,
    creators: seq<string>,
    styles: seq<string>,
    images: seq<ImageItem>,
    documents: seq<Chapter>,
    toc: seq<TocItem>)

  const UntitledText: string := "Sin título"
  const UnknownAuthor: string := "Desconocido"

  /** The first metadata value, or the fallback when there is none; an empty value is kept. */
  function FirstOr(values: seq<string>, fallback: string): (r: string)
    ensures values != [] ==> r == values[0]
    ensures values == [] ==> r == fallback
  {
    if values != [] then values[0] else fallback
  }

  function TitleText(book: Book): (r: string)
    ensures book.titles != [] ==> r == book.titles[0]
    ensures book.titles == [] ==> r == "Sin título"
  {
    FirstOr(book.titles, UntitledText)
  }

  function AuthorText(book: Book): (r: string)
    ensures book.creators != [] ==> r == book.creators[0]
    ensures book.creators == [] ==> r == "Desconocido"
  {
    FirstOr(book.creators, UnknownAuthor)
  }

  /** css_content: each style item's text followed by a newline, in item order. */
  function StyleSheet(styles: seq<string>): (css: string)
    ensures |css| >= |styles|
    ensures styles != [] ==> css[|css| - 1] == '\n'
  {
    if styles == [] then "" else StyleSheet(styles[..|styles| - 1]) + styles[|styles| - 1] + "\n"
  }

  /** The stylesheet of a list of items is the concatenation of "text\n" for each item. */
  lemma {:induction false} StyleSheetIsJoin(styles: seq<string>)
    ensures StyleSheet(styles) == Concat(seq(|styles|, i requires 0 <= i < |styles| => styles[i] + "\n"))
  {
    var lines := seq(|styles|, i requires 0 <= i < |styles| => styles[i] + "\n");
    if styles != [] {
      var n := |styles| - 1;
      var init := styles[..n];
      StyleSheetIsJoin(init);
      var initLines := seq(|init|, i requires 0 <= i < |init| => init[i] + "\n");
      assert lines == initLines + [styles[n] + "\n"];
      ConcatAppend(initLines, [styles[n] + "\n"]);
      assert Concat([styles[n] + "\n"]) == styles[n] + "\n" + Concat([]);
    }
  }

  /** Appends each style item's text and a newline to the stylesheet, item by item. */
  method BuildCss(styles: seq<string>) returns (css: string)
    ensures css == StyleSheet(styles)
  {
    css := "";
    for i := 0 to |styles|
      invariant css == StyleSheet(styles[..i])
    {
      assert styles[..i + 1][..i] == styles[..i];
      css := css + styles[i] + "\n";
    }
    assert styles[..|styles|] == styles;
  }

  /** images_map after the loop over the image items: a later item with the same file name
      overwrites an earlier one. */
  function ImageMap(items: seq<ImageItem>, b64: seq<Byte> -> string): (images: map<string, string>)
    ensures forall i :: 0 <= i < |items| ==> items[i].fileName in images
  {
    if items == [] then map[]
    else
      var last := items[|items| - 1];
      ImageMap(items[..|items| - 1], b64)[last.fileName := b64(last.content)]
  }

  /** The keys are exactly the items' file names. */
  lemma {:induction false} ImageMapKeys(items: seq<ImageItem>, b64: seq<Byte> -> string)
    ensures forall k :: k in ImageMap(items, b64) <==> exists i :: 0 <= i < |items| && items[i].fileName == k
  {
    if items != [] {
      var n := |items| - 1;
      var init := items[..n];
      ImageMapKeys(init, b64);
      forall k ensures k in ImageMap(items, b64) <==> exists i :: 0 <= i < |items| && items[i].fileName == k {
        if k == items[n].fileName {
        } else if k in ImageMap(init, b64) {
          var i :| 0 <= i < |init| && init[i].fileName == k;
          assert items[i].fileName == k;
        } else {
          forall i | 0 <= i < |items| ensures items[i].fileName != k {
            if i < n {
              assert init[i] == items[i];
            }
          }
        }
      }
    }
  }

  /** Each file name maps to the encoding of the last item that has that name. */
  lemma {:induction false} ImageMapLastWins(items: seq<ImageItem>, b64: seq<Byte> -> string, i: nat)
    requires i < |items|
    requires forall j :: i < j < |items| ==> items[j].fileName != items[i].fileName
    ensures items[i].fileName in ImageMap(items, b64)
    ensures ImageMap(items, b64)[items[i].fileName] == b64(items[i].content)
  {
    var n := |items| - 1;
    if i < n {
      var init := items[..n];
      assert init[i] == items[i];
      forall j | i < j < |init| ensures init[j].fileName != init[i].fileName {
        assert init[j] == items[j];
      }
      ImageMapLastWins(init, b64, i);
    }
  }

  /** Stores each image item's base64 text under its file name, item by item. */
  method BuildImageMap(items: seq<ImageItem>, b64: seq<Byte> -> string) returns (images: map<string, string>)
    ensures images == ImageMap(items, b64)
  {
    images := map[];
    for i := 0 to |items|
      invariant images == ImageMap(items[..i], b64)
    {
      assert items[..i + 1][..i] == items[..i];
      images := images[items[i].fileName := b64(items[i].content)];
    }
    assert items[..|items|] == items;
  }

  const CoverOpen: string :=
    "\n    <div style=\"page-break-after: always; text-align:center; margin-top: 200px;\">\n        <h1 style=\"font-size: 48px; margin-bottom: 20px;\">"
  const CoverMiddle: string := "</h1>\n        <h3 style=\"font-size: 24px; color: #666;\">"
  const CoverClose: string := "</h3>\n    </div>\n    "

  /** The cover: title as a large heading, author below it, page break after. Both are
      interpolated verbatim. */
  function Cover(title: string, author: string): (r: string)
    ensures |r| == |CoverOpen| + |title| + |CoverMiddle| + |author| + |CoverClose|
    ensures r[..|CoverOpen|] == CoverOpen
    ensures r[|CoverOpen|..|CoverOpen| + |title|] == title
    ensures r[|CoverOpen| + |title|..|CoverOpen| + |title| + |CoverMiddle|] == CoverMiddle
    ensures r[|r| - |CoverClose| - |author|..|r| - |CoverClose|] == author
    ensures r[|r| - |CoverClose|..] == CoverClose
  {
    FivePieces(CoverOpen, title, CoverMiddle, author, CoverClose);
    CoverOpen + title + CoverMiddle + author + CoverClose
  }

  const BreakAfterOpen: string := "<div style=\"page-break-after: always;\">"
  const BreakBeforeOpen: string := "<div style=\"page-break-before: always;\">"
  const DivClose: string := "</div>"

  /** The index before the chapters, with a page break after it. */
  function LeadingIndex(toc: seq<TocItem>): (r: string)
    ensures |r| == |BreakAfterOpen| + |TocHtml(toc, true)| + |DivClose|
    ensures r[..|BreakAfterOpen|] == BreakAfterOpen
    ensures r[|BreakAfterOpen|..|r| - |DivClose|] == TocHtml(toc, true)
    ensures r[|r| - |DivClose|..] == DivClose
  {
    ThreePieces(BreakAfterOpen, TocHtml(toc, true), DivClose);
    BreakAfterOpen + TocHtml(toc, true) + DivClose
  }

  /** The index after the chapters, with a page break before it; inside its wrapper it is the
      same markup as the leading index, heading included. */
  function TrailingIndex(toc: seq<TocItem>): (r: string)
    ensures |r| == |BreakBeforeOpen| + |TocHtml(toc, true)| + |DivClose|
    ensures r[..|BreakBeforeOpen|] == BreakBeforeOpen
    ensures r[|BreakBeforeOpen|..|r| - |DivClose|] == TocHtml(toc, true)
    ensures r[|r| - |DivClose|..] == DivClose
  {
    ThreePieces(BreakBeforeOpen, TocHtml(toc, true), DivClose);
    BreakBeforeOpen + TocHtml(toc, true) + DivClose
  }

  const StyleOpen: string := "\n    <style>\n    "

  /** The fixed rules that follow the book's own stylesheet inside the <style> block. */
  const DefaultRules: string :=
    "\n    body { font-family: DejaVu Sans, sans-serif; line-height: 1.6; padding: 20px; }"
    + "\n    h1, h2, h3 { color: #333; margin-top: 24px; margin-bottom: 12px; }"
    + "\n    img { max-width: 100%; height: auto; display: block; margin: 10px auto; }"
    + "\n    ul { margin-left: 20px; }"
    + "\n    a { color: #0645ad; text-decoration: none; }"
    + "\n    a:hover { text-decoration: underline; }"
    + "\n    div[style*=\"page-break-before: always;\"], div[style*=\"page-break-after: always;\"] {"
    + "\n        page-break-before: always;"
    + "\n        page-break-after: always;"
    + "\n    }"
    + "\n    </style>\n    "

  /** default_css: one <style> block, the book's stylesheet first, the fixed rules after it. */
  function StyleBlock(css: string): (r: string)
    ensures |r| == |StyleOpen| + |css| + |DefaultRules|
    ensures r[|StyleOpen|..|StyleOpen| + |css|] == css
    ensures r[|StyleOpen| + |css|..] == DefaultRules
  {
    ThreePieces(StyleOpen, css, DefaultRules);
    StyleOpen + css + DefaultRules
  }

  const ShellHead: string :=
    "<!DOCTYPE html>\n    <html>\n    <head>\n    <meta charset=\"utf-8\">\n    <meta name=\"viewport\" content=\"width=device-width, initial-scale=1.0\">\n    "
  const TitleOpen: string := "\n    <title>"
  const HeadClose: string := "</title>\n    </head>\n    <body>\n    "
  const ShellTail: string := "\n    </body>\n    </html>"

  /** html_final: the document shell around the style block, the title and the body text. */
  function Shell(styleBlock: string, title: string, body: string): (r: string)
    ensures |r| == |ShellHead| + |styleBlock| + |TitleOpen| + |title| + |HeadClose| + |body| + |ShellTail|
    ensures r[..|ShellHead| + |styleBlock|] == ShellHead + styleBlock
    ensures r[|ShellHead| + |styleBlock|..|ShellHead| + |styleBlock| + |TitleOpen|] == TitleOpen
    ensures var t := |ShellHead| + |styleBlock| + |TitleOpen|; r[t..t + |title|] == title
    ensures var t := |ShellHead| + |styleBlock| + |TitleOpen| + |title|; r[t..t + |HeadClose|] == HeadClose
    ensures r[|r| - |ShellTail| - |body|..|r| - |ShellTail|] == body
    ensures r[|r| - |ShellTail|..] == ShellTail
  {
    Framed(ShellHead, styleBlock, TitleOpen, title, HeadClose, body, ShellTail)
  }

  /** Seven pieces joined in order, each found back at its place. */
  function Framed(a: string, b: string, c: string, d: string, e: string, f: string, g: string): (r: string)
    ensures |r| == |a| + |b| + |c| + |d| + |e| + |f| + |g|
    ensures r[..|a| + |b|] == a + b
    ensures r[|a| + |b|..|a| + |b| + |c|] == c
    ensures var t := |a| + |b| + |c|; r[t..t + |d|] == d
    ensures var t := |a| + |b| + |c| + |d|; r[t..t + |e|] == e
    ensures r[|r| - |g| - |f|..|r| - |g|] == f
    ensures r[|r| - |g|..] == g
  {
    a + b + c + d + e + f + g
  }

  /** The serialised text of every document item after rewriting, in item order. */
  function ChapterParts(docs: seq<Chapter>, images: map<string, string>, serialize: Chapter -> string): (r: seq<string>)
    ensures |r| == |docs|
  {
    seq(|docs|, i requires 0 <= i < |docs| => serialize(Rewritten(docs[i], images)))
  }

  /** html_parts: cover, leading index, chapters, trailing index. */
  function BodyParts(book: Book, b64: seq<Byte> -> string, serialize: Chapter -> string): (r: seq<string>)
    ensures |r| == |book.documents| + 3
    ensures r[0] == Cover(TitleText(book), AuthorText(book)) && r[1] == LeadingIndex(book.toc)
    ensures r[|r| - 1] == TrailingIndex(book.toc)
    ensures forall i :: 0 <= i < |book.documents| ==>
              r[i + 2] == serialize(Rewritten(book.documents[i], ImageMap(book.images, b64)))
  {
    Between(Cover(TitleText(book), AuthorText(book)), LeadingIndex(book.toc),
            ChapterParts(book.documents, ImageMap(book.images, b64), serialize), TrailingIndex(book.toc))
  }

  /** Two leading parts, the middle parts in order, then one trailing part. */
  function Between<T>(first: T, second: T, middle: seq<T>, last: T): (r: seq<T>)
    ensures |r| == |middle| + 3 && r[0] == first && r[1] == second && r[|r| - 1] == last
    ensures forall i :: 0 <= i < |middle| ==> r[i + 2] == middle[i]
  {
    [first, second] + middle + [last]
  }

  /** The whole document handed to the PDF renderer: the joined html parts sit right before the
      shell's closing tail. */
  function AssembledHtml(book: Book, b64: seq<Byte> -> string, serialize: Chapter -> string): (r: string)
    ensures var body := Concat(BodyParts(book, b64, serialize));
      |r| >= |body| + |ShellTail| && r[|r| - |ShellTail| - |body|..|r| - |ShellTail|] == body
      && r[|r| - |ShellTail|..] == ShellTail
  {
    var body := Concat(BodyParts(book, b64, serialize));
    Shell(StyleBlock(StyleSheet(book.styles)), TitleText(book), body)
  }

  /** convert_epub_to_pdf up to the document handed to the renderer. */
  method AssembleDocument(book: Book, b64: seq<Byte> -> string, serialize: Chapter -> string) returns (html: string)
    ensures html == AssembledHtml(book, b64, serialize)
  {
    var titleText := FirstOr(book.titles, UntitledText);
    var authorText := FirstOr(book.creators, UnknownAuthor);
    var css := BuildCss(book.styles);
    var images := BuildImageMap(book.images, b64);
    var cover := Cover(titleText, authorText);
    var leading := LeadingIndex(book.toc);
    var parts := AppendChapters([cover, leading], book.documents, images, serialize);
    parts := parts + [TrailingIndex(book.toc)];
    html := Shell(StyleBlock(css), titleText, Concat(parts));
  }

  /** Appends each document item, rewritten and serialised, to the parts built so far. */
  method AppendChapters(front: seq<string>, docs: seq<Chapter>, images: map<string, string>,
                        serialize: Chapter -> string) returns (parts: seq<string>)
    ensures parts == front + ChapterParts(docs, images, serialize)
  {
    parts := front;
    for i := 0 to |docs|
      invariant parts == front + ChapterParts(docs[..i], images, serialize)
    {
      var doc := ProcessChapter(docs[i], images);
      assert ChapterParts(docs[..i + 1], images, serialize)
          == ChapterParts(docs[..i], images, serialize) + [serialize(doc)];
      parts := parts + [serialize(doc)];
    }
    assert docs[..|docs|] == docs;
  }

  /** The body text is the cover, the leading index, the chapters in item order and the
      trailing index, one after the other. */
  lemma BodyOrder(cover: string, leading: string, chapters: seq<string>, trailing: string)
    ensures Concat([cover, leading] + chapters + [trailing]) == cover + leading + Concat(chapters) + trailing
  {
    var front := [cover, leading];
    ConcatAppend(front + chapters, [trailing]);
    ConcatAppend(front, chapters);
    assert front[1..] == [leading] && front[1..][1..] == [];
    assert Concat([leading]) == leading + "";
    assert Concat(front) == cover + leading;
    assert Concat([trailing]) == trailing + "";
  }

  /** The document reads, in order: the shell's head, the book's stylesheet, the fixed rules,
      the title, the cover, the leading index, every rewritten chapter in item order, the
      trailing index (the same index markup again) and the shell's tail. */
  lemma AssemblyOrder(book: Book, b64: seq<Byte> -> string, serialize: Chapter -> string)
    ensures AssembledHtml(book, b64, serialize)
         == ShellHead + (StyleOpen + StyleSheet(book.styles) + DefaultRules)
            + TitleOpen + TitleText(book) + HeadClose
            + (Cover(TitleText(book), AuthorText(book)) + LeadingIndex(book.toc)
               + Concat(ChapterParts(book.documents, ImageMap(book.images, b64), serialize))
               + TrailingIndex(book.toc))
            + ShellTail
  {
    BodyOrder(Cover(TitleText(book), AuthorText(book)), LeadingIndex(book.toc),
              ChapterParts(book.documents, ImageMap(book.images, b64), serialize), TrailingIndex(book.toc));
  }

  /** The i-th document item's rewritten, serialised text sits in the body between the cover,
      the leading index and the chapters before it, and the chapters after it and the trailing
      index. */
  lemma ChapterInPlace(book: Book, b64: seq<Byte> -> string, serialize: Chapter -> string, i: nat)
    requires i < |book.documents|
    ensures var images := ImageMap(book.images, b64);
      var chapters := ChapterParts(book.documents, images, serialize);
      Concat(BodyParts(book, b64, serialize))
        == Cover(TitleText(book), AuthorText(book)) + LeadingIndex(book.toc)
           + (Concat(chapters[..i]) + serialize(Rewritten(book.documents[i], images)) + Concat(chapters[i + 1..]))
           + TrailingIndex(book.toc)
  {
    var images := ImageMap(book.images, b64);
    var chapters := ChapterParts(book.documents, images, serialize);
    BodyOrder(Cover(TitleText(book), AuthorText(book)), LeadingIndex(book.toc), chapters, TrailingIndex(book.toc));
    ConcatAt(chapters, i);
    assert chapters[i] == serialize(Rewritten(book.documents[i], images));
  }

  /** Index links point at "#" + the TOC href with its extension, while a chapter's body id
      drops the extension: the link to "ch1.xhtml" targets "#ch1.xhtml", the body id is "ch1". */
  lemma IndexLinksKeepExtension(title: string)
    ensures ItemsHtml([Link("ch1.xhtml", title)])
         == "<li><a href=\"#" + "ch1.xhtml" + "\">" + title + "</a></li>"
    ensures Anchor("ch1.xhtml") == "ch1" != "ch1.xhtml"
  {
    LinkHtml("ch1.xhtml", title);
    assert RFind("ch1.xhtml", '.') == 3;
  }
}
