/** Per-chapter rewriting of the e-book conversion. A parsed chapter document is abstracted to
    what the rewriting touches: its file name, its first <body> tag (absent, or present with or
    without an id attribute) and the src attribute of each of its <img> tags, in document order.
    The body gets an anchor id derived from the file name unless it already has one; every img
    whose src is a key of the image map gets an inline data: URI. */
module Chapters {
  import opened Wrappers
  import opened Text

  datatype Body = NoBody | Body(id: Option<string>)

  datatype Chapter = Chapter(fileName: string, body: Body, imgs: seq<Option<string>>)

  /** A chapter's anchor: its file name without the last ".ext"; a name without a dot is kept
      whole. */
  function Anchor(fileName: string): (r: string)
    ensures '.' !in fileName ==> r == fileName
    ensures '.' in fileName ==> |r| < |fileName| && fileName[..|r|] == r && fileName[|r|] == '.'
    ensures '.' in fileName ==> forall j :: |r| < j < |fileName| ==> fileName[j] != '.'
  {
    var k := RFind(fileName, '.');
    if k < 0 then fileName else fileName[..k]
  }

  /** Two different chapter files can get the same anchor: rsplit drops the extension. */
  lemma AnchorsCollide()
    ensures Anchor("a.xhtml") == Anchor("a.html") == "a"
  {
  }

  /** The extension of a path under the POSIX rules of splitext: from the last '.' after the last '/',
      provided the file-name part has some character other than '.' before that dot; else "". */
  function Extension(p: string): (e: string)
    ensures |e| <= |p|
    ensures e != [] ==> e[0] == '.' && p[|p| - |e|..] == e
  {
    var sep := RFind(p, '/');
    var dot := RFind(p, '.');
    if dot > sep && exists j :: sep + 1 <= j < dot && p[j] != '.' then p[dot..] else ""
  }

  /** A non-empty extension is a suffix of the path that starts with its only '.' and holds no
      '/'; it is empty exactly when the last file-name part has no dot after a non-dot. */
  lemma ExtensionShape(p: string)
    ensures var e := Extension(p);
      e != [] ==> (|e| <= |p| && p[|p| - |e|..] == e && e[0] == '.' &&
                   forall j :: 0 < j < |e| ==> e[j] != '.' && e[j] != '/')
    ensures Extension(p) == [] <==>
      !exists d, j :: 0 <= j < d < |p| && p[d] == '.' && p[j] != '.' && '/' !in p[j..]
  {
    var sep, dot := RFind(p, '/'), RFind(p, '.');
    if Extension(p) != [] {
      var j :| sep + 1 <= j < dot && p[j] != '.';
      forall k | 0 <= k < |p| - j ensures p[j..][k] != '/' {
        assert p[j..][k] == p[j + k];
      }
      assert 0 <= j < dot < |p| && p[dot] == '.' && p[j] != '.' && '/' !in p[j..];
    } else {
      forall d, j | 0 <= j < d < |p| && p[d] == '.' && p[j] != '.'
        ensures '/' in p[j..]
      {
        assert d <= dot;
        if dot > sep {
          assert j <= sep;
        }
        assert p[j..][sep - j] == '/';
      }
    }
  }

  /** The MIME type for a lower-cased extension: JPEG, PNG and GIF are recognised, anything
      else is generic binary data. */
  function MimeForExtension(ext: string): (m: string)
    ensures ';' !in m
  {
    if ext == ".jpg" || ext == ".jpeg" then "image/jpeg"
    else if ext == ".png" then "image/png"
    else if ext == ".gif" then "image/gif"
    else "application/octet-stream"
  }

  /** The MIME type chosen from the lower-cased extension of an image path. */
  function MimeType(src: string): (m: string)
    ensures ';' !in m
  {
    MimeForExtension(Lower(Extension(src)))
  }

  lemma LowerIdempotent(s: string)
    ensures Lower(Lower(s)) == Lower(s)
  {
  }

  /** Lower-casing a path commutes with taking its extension. */
  lemma ExtensionLower(p: string)
    ensures Extension(Lower(p)) == Lower(Extension(p))
  {
    var q := Lower(p);
    RFindLower(p, '/');
    RFindLower(p, '.');
    var sep, dot := RFind(p, '/'), RFind(p, '.');
    forall j | 0 <= j < |p| ensures q[j] != '.' <==> p[j] != '.' {
      LowerKeepsNonLetters(p, '.', j);
    }
    if dot > sep {
      assert q[dot..] == Lower(p[dot..]);
    }
  }

  /** The MIME type does not depend on the case of the path. */
  lemma MimeTypeIgnoresCase(src: string)
    ensures MimeType(Lower(src)) == MimeType(src)
  {
    ExtensionLower(src);
    LowerIdempotent(Extension(src));
  }

  /** The extension is matched without regard to case. */
  lemma MimeTypeUpperCaseExample()
    ensures MimeType("img/a.JPG") == "image/jpeg"
  {
    assert RFind("img/a.JPG", '/') == 3;
    assert RFind("img/a.JPG", '.') == 5;
    assert "img/a.JPG"[4] != '.';
    assert "img/a.JPG"[5..] == ".JPG";
    assert Extension("img/a.JPG") == ".JPG";
    assert Lower(".JPG") == ".jpg";
  }

  /** A file name that is only a dot and an extension has no extension. */
  lemma MimeTypeDotFileExample()
    ensures MimeType("img/.png") == "application/octet-stream"
  {
  }

  /** A dot in a directory name is not an extension. */
  lemma MimeTypeDirectoryDotExample()
    ensures MimeType("a.d/photo") == "application/octet-stream"
  {
  }

  /** data:<mime>;base64,<payload>, the data URL of section 3 of RFC 2397. */
  function DataUri(mime: string, payload: string): (r: string)
    ensures |r| == 13 + |mime| + |payload|
    ensures r[..5] == "data:" && r[5..5 + |mime|] == mime
    ensures r[5 + |mime|..13 + |mime|] == ";base64," && r[13 + |mime|..] == payload
  {
    "data:" + mime + ";base64," + payload
  }

  /** Splits a base64 data URL into its media type and its payload. */
  function ParseDataUri(s: string): Option<(string, string)>
  {
    if |s| >= 5 && s[..5] == "data:" then
      var rest := s[5..];
      var k := Find(rest, ';');
      if k >= 0 && k + 8 <= |rest| && rest[k..k + 8] == ";base64," then Some((rest[..k], rest[k + 8..]))
      else None
    else None
  }

  /** A data URL built from a media type without ';' splits back into its two parts. */
  lemma DataUriRoundTrip(mime: string, payload: string)
    requires ';' !in mime
    ensures ParseDataUri(DataUri(mime, payload)) == Some((mime, payload))
  {
    var s := DataUri(mime, payload);
    var rest := s[5..];
    assert s[..5] == "data:";
    assert rest == mime + ";base64," + payload;
    assert rest[|mime|] == ';';
    var k := Find(rest, ';');
    assert k != -1;
    assert k == |mime|;
    assert rest[k..k + 8] == ";base64,";
    assert rest[..k] == mime;
    assert rest[k + 8..] == payload;
  }

  /** The id the body ends up with: the anchor when a body exists without an id; otherwise the
      body, and an existing id, are left as they are. */
  function AnchoredBody(body: Body, fileName: string): (b: Body)
    ensures b.Body? <==> body.Body?
    ensures body.Body? && body.id.Some? ==> b == body
    ensures body == Body(None) ==> b.id == Some(Anchor(fileName))
  {
    match body
    case Body(None) => Body(Some(Anchor(fileName)))
    case _ => body
  }

  /** Whether an img is rewritten: it has a src, the src is not empty, and it is a key of the
      image map. */
  predicate Inlinable(src: Option<string>, images: map<string, string>)
    ensures Inlinable(src, images) ==> src.Some? && src.value in images
    ensures src == Some("") ==> !Inlinable(src, images)
  {
    src.Some? && src.value != "" && src.value in images
  }

  /** The src of one img after rewriting: a non-empty src that is a key of the image map
      becomes a data URL of the mapped payload; anything else stays. */
  function InlinedSrc(src: Option<string>, images: map<string, string>): (r: Option<string>)
    ensures !Inlinable(src, images) ==> r == src
    ensures Inlinable(src, images) ==>
              r.Some? && |r.value| >= 13 + |images[src.value]| && r.value[..5] == "data:"
              && r.value[|r.value| - |images[src.value]|..] == images[src.value]
  {
    if Inlinable(src, images) then
      Some(DataUri(MimeType(src.value), images[src.value]))
    else src
  }

  /** An img without a src, with an empty src or with a src that is not a key keeps it; any
      other gets a data URL that reads back as the path's MIME type and that key's payload. */
  lemma InlinedSrcMeaning(src: Option<string>, images: map<string, string>)
    ensures !Inlinable(src, images) ==> InlinedSrc(src, images) == src
    ensures Inlinable(src, images) ==>
              InlinedSrc(src, images).Some? &&
              ParseDataUri(InlinedSrc(src, images).value) == Some((MimeType(src.value), images[src.value]))
  {
    if Inlinable(src, images) {
      DataUriRoundTrip(MimeType(src.value), images[src.value]);
    }
  }

  function InlineAll(srcs: seq<Option<string>>, images: map<string, string>): (r: seq<Option<string>>)
    ensures |r| == |srcs|
    ensures forall i :: 0 <= i < |srcs| && !Inlinable(srcs[i], images) ==> r[i] == srcs[i]
    ensures forall i :: 0 <= i < |srcs| && Inlinable(srcs[i], images) ==> r[i].Some? && |r[i].value| >= 5 && r[i].value[..5] == "data:"
  {
    seq(|srcs|, i requires 0 <= i < |srcs| => InlinedSrc(srcs[i], images))
  }

  lemma InlineAllSnoc(srcs: seq<Option<string>>, src: Option<string>, images: map<string, string>)
    ensures InlineAll(srcs + [src], images) == InlineAll(srcs, images) + [InlinedSrc(src, images)]
  {
    assert forall i | 0 <= i < |srcs| + 1 ::
      InlineAll(srcs + [src], images)[i] == (InlineAll(srcs, images) + [InlinedSrc(src, images)])[i];
  }

  /** A chapter after both rewritings. */
  function Rewritten(doc: Chapter, images: map<string, string>): (r: Chapter)
    ensures r.fileName == doc.fileName
    ensures r.body.Body? <==> doc.body.Body?
    ensures r.body.Body? ==> r.body.id.Some?
    ensures doc.body.Body? && doc.body.id.Some? ==> r.body == doc.body
    ensures |r.imgs| == |doc.imgs|
  {
    Chapter(doc.fileName, AnchoredBody(doc.body, doc.fileName), InlineAll(doc.imgs, images))
  }

  /** A parsed chapter whose tags are changed in place. */
  class Soup {
    const fileName: string
    var body: Body
    const imgs: array<Option<string>>

    /** The chapter as it now reads. */
    function Model(): Chapter
      reads this, imgs
    {
      Chapter(fileName, body, imgs[..])
    }

    constructor (doc: Chapter)
      ensures Model() == doc && fresh(imgs)
    {
      fileName := doc.fileName;
      body := doc.body;
      imgs := new Option<string>[|doc.imgs|](i requires 0 <= i < |doc.imgs| => doc.imgs[i]);
      new;
      assert imgs[..] == doc.imgs;
    }

    /** Gives the body tag the file's anchor as its id, when there is a body tag and it has
        no id yet. */
    method AnchorBody()
      modifies this
      ensures body == AnchoredBody(old(body), fileName)
    {
      if body == Body(None) {
        body := Body(Some(Anchor(fileName)));
      }
    }

    /** Rewrites the src of every img, in document order. */
    method InlineImages(images: map<string, string>)
      modifies imgs
      ensures imgs[..] == InlineAll(old(imgs[..]), images)
    {
      ghost var before := imgs[..];
      for i := 0 to imgs.Length
        invariant imgs[..i] == InlineAll(before[..i], images)
        invariant imgs[i..] == before[i..]
      {
        var src := imgs[i];
        assert src == before[i];
        if Inlinable(src, images) {
          var mime := MimeType(src.value);
          imgs[i] := Some(DataUri(mime, images[src.value]));
        }
        assert imgs[i] == InlinedSrc(before[i], images);
        assert imgs[..i + 1] == imgs[..i] + [imgs[i]];
        assert before[..i + 1] == before[..i] + [before[i]];
        InlineAllSnoc(before[..i], before[i], images);
      }
      assert imgs[..] == imgs[..imgs.Length];
      assert before == before[..imgs.Length];
    }
  }

  /** Parses one chapter, anchors its body, inlines its images and reads it back. */
  method ProcessChapter(doc: Chapter, images: map<string, string>) returns (out: Chapter)
    ensures out == Rewritten(doc, images)
  {
    var soup := new Soup(doc);
    soup.AnchorBody();
    soup.InlineImages(images);
    out := soup.Model();
  }
}
