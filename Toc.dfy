/** The table-of-contents index of the e-book conversion: the book's navigation tree flattened
    into nested <ul>/<li> markup by a recursive generator (append_toc_items), wrapped with an
    "Índice" heading (generate_toc_html). Titles and hrefs are interpolated verbatim. */
module Toc {
  import opened Text

  /** The head of a section: the href and title of the link object in a (link, children) pair. */
  datatype Heading = Heading(href: string, title: string)

  /** One entry of book.toc: an epub.Link, a 2-tuple (link, children), or anything else. */
  datatype TocItem =
    | Link(href: string, title: string)
    | Section(link: Heading, children: seq<TocItem>)
    | Other

  /** One string yielded by the generator: a whole link item, the opener of a section's item
      (its link followed by <ul>), or the closer of a section's item. */
  datatype Fragment = Entry(href: string, title: string) | Opener(href: string, title: string) | Closer

  /** The exact text of a yielded fragment; every one has at least ten characters. */
  function FragmentText(f: Fragment): (r: string)
    ensures |r| >= 10
  {
    match f
    case Entry(href, title) => "<li><a href=\"#" + href + "\">" + title + "</a></li>"
    case Opener(href, title) => "<li><a href=\"#" + href + "\">" + title + "</a><ul>"
    case Closer => "</ul></li>"
  }

  /** Where the href and the title sit in a link's fragment, and how each kind of fragment
      ends: a plain link closes its item, a section link opens the nested list. */
  lemma FragmentSlots(f: Fragment)
    ensures f.Closer? ==> FragmentText(f) == "</ul></li>"
    ensures !f.Closer? ==>
              var r := FragmentText(f);
              |r| >= 16 + |f.href| + |f.title| && r[..14] == "<li><a href=\"#"
              && r[14..14 + |f.href|] == f.href && r[14 + |f.href|..16 + |f.href|] == "\">"
              && r[16 + |f.href|..16 + |f.href| + |f.title|] == f.title
    ensures f.Entry? ==> FragmentText(f)[|FragmentText(f)| - 9..] == "</a></li>"
    ensures f.Opener? ==> FragmentText(f)[|FragmentText(f)| - 8..] == "</a><ul>"
  {
    match f
    case Entry(href, title) => LinkSlots(href, title, "</a></li>");
    case Opener(href, title) => LinkSlots(href, title, "</a><ul>");
    case Closer =>
  }

  lemma LinkSlots(href: string, title: string, close: string)
    ensures var r := "<li><a href=\"#" + href + "\">" + title + close;
      |r| == 16 + |href| + |title| + |close| && r[..14] == "<li><a href=\"#"
      && r[14..14 + |href|] == href && r[14 + |href|..16 + |href|] == "\">"
      && r[16 + |href|..16 + |href| + |title|] == title && r[|r| - |close|..] == close
  {
    FivePieces("<li><a href=\"#", href, "\">", title, close);
  }

  /** Lists opened minus lists closed by a run of fragments. */
  function Balance(fs: seq<Fragment>): int
  {
    if fs == [] then 0
    else (match fs[0] case Opener(_, _) => 1 case Closer => -1 case Entry(_, _) => 0) + Balance(fs[1..])
  }

  lemma {:induction false} BalanceAppend(a: seq<Fragment>, b: seq<Fragment>)
    ensures Balance(a + b) == Balance(a) + Balance(b)
  {
    if a == [] {
      assert a + b == b;
    } else {
      assert (a + b)[0] == a[0];
      assert (a + b)[1..] == a[1..] + b;
      BalanceAppend(a[1..], b);
    }
  }

  /** The fragments the generator yields for a list of TOC items, in order: a link gives one
      whole list item, a (link, children) pair gives an opener, its children's fragments and a
      closer, and any other item gives nothing. Every list opened is closed again. */
  function Yields(items: seq<TocItem>): (r: seq<Fragment>)
    ensures Balance(r) == 0
    decreases items
  {
    if items == [] then []
    else
      var rest := Yields(items[1..]);
      match items[0]
      case Link(href, title) =>
        BalanceAppend([Entry(href, title)], rest);
        [Entry(href, title)] + rest
      case Section(link, children) =>
        var inner := Yields(children);
        var opener := [Opener(link.href, link.title)];
        BalanceAppend(opener, inner);
        BalanceAppend(opener + inner, [Closer]);
        BalanceAppend(opener + inner + [Closer], rest);
        opener + inner + [Closer] + rest
      case Other => rest
  }

  /** The text of each fragment, in order. */
  function Texts(fs: seq<Fragment>): (r: seq<string>)
    ensures |r| == |fs|
  {
    seq(|fs|, i requires 0 <= i < |fs| => FragmentText(fs[i]))
  }

  /** Every fragment's text has at least ten characters. */
  lemma {:induction false} TextsLength(fs: seq<Fragment>)
    ensures |Concat(Texts(fs))| >= 10 * |fs|
  {
    if fs != [] {
      assert Texts(fs)[0] == FragmentText(fs[0]);
      assert Texts(fs)[1..] == Texts(fs[1..]);
      TextsLength(fs[1..]);
    }
  }

  /** The markup of a list of TOC items: the join of what the generator yields. It is empty
      exactly when the generator yields nothing. */
  function ItemsHtml(items: seq<TocItem>): (r: string)
    ensures r == "" <==> Yields(items) == []
  {
    TextsLength(Yields(items));
    Concat(Texts(Yields(items)))
  }

  const IndexHeading: string := "<h1>Índice</h1>\n"
  const ListOpen: string := "<ul>\n"
  const ListClose: string := "\n</ul>\n"

  /** The index markup: the "Índice" heading when asked for, then the flattened items inside
      one outer list. */
  function TocHtml(toc: seq<TocItem>, withTitle: bool): (r: string)
    ensures var start := if withTitle then |IndexHeading| + |ListOpen| else |ListOpen|;
      |r| == start + |ItemsHtml(toc)| + |ListClose| && r[start - |ListOpen|..start] == ListOpen
      && r[start..|r| - |ListClose|] == ItemsHtml(toc)
    ensures r[|r| - |ListClose|..] == ListClose
    ensures withTitle ==> r[..|IndexHeading|] == IndexHeading
  {
    var heading := if withTitle then IndexHeading else "";
    FourPieces(heading, ListOpen, ItemsHtml(toc), ListClose);
    heading + ListOpen + ItemsHtml(toc) + ListClose
  }

  lemma {:induction false} YieldsAppend(a: seq<TocItem>, b: seq<TocItem>)
    ensures Yields(a + b) == Yields(a) + Yields(b)
    decreases a
  {
    if a == [] {
      assert a + b == b;
    } else {
      assert (a + b)[0] == a[0];
      assert (a + b)[1..] == a[1..] + b;
      YieldsAppend(a[1..], b);
    }
  }

  /** The index of a list is the index of each part, in order. */
  lemma ItemsHtmlAppend(a: seq<TocItem>, b: seq<TocItem>)
    ensures ItemsHtml(a + b) == ItemsHtml(a) + ItemsHtml(b)
  {
    YieldsAppend(a, b);
    TextsAppend(Yields(a), Yields(b));
    ConcatAppend(Texts(Yields(a)), Texts(Yields(b)));
  }

  lemma TextsAppend(x: seq<Fragment>, y: seq<Fragment>)
    ensures Texts(x + y) == Texts(x) + Texts(y)
  {
    assert forall i | 0 <= i < |x + y| :: Texts(x + y)[i] == (Texts(x) + Texts(y))[i];
  }

  /** A link emits exactly one list item pointing at "#" + href. */
  lemma LinkHtml(href: string, title: string)
    ensures ItemsHtml([Link(href, title)]) == "<li><a href=\"#" + href + "\">" + title + "</a></li>"
  {
    assert [Link(href, title)][1..] == [];
    assert Yields([Link(href, title)]) == [Entry(href, title)];
    assert Texts([Entry(href, title)]) == [FragmentText(Entry(href, title))];
    assert [FragmentText(Entry(href, title))][1..] == [];
    assert Concat([FragmentText(Entry(href, title))]) == FragmentText(Entry(href, title)) + "";
  }

  /** A (link, children) pair emits its link, then <ul>, then its children in order, then
      the closing tags. */
  lemma SectionHtml(link: Heading, children: seq<TocItem>)
    ensures ItemsHtml([Section(link, children)])
         == "<li><a href=\"#" + link.href + "\">" + link.title + "</a><ul>" + ItemsHtml(children) + "</ul></li>"
  {
    var opener := [Opener(link.href, link.title)];
    var fs := opener + Yields(children) + [Closer];
    assert [Section(link, children)][1..] == [];
    assert Yields([Section(link, children)]) == fs;
    assert Texts(fs) == Texts(opener) + Texts(Yields(children)) + Texts([Closer]);
    ConcatAppend(Texts(opener) + Texts(Yields(children)), Texts([Closer]));
    ConcatAppend(Texts(opener), Texts(Yields(children)));
    assert Texts([Closer]) == ["</ul></li>"] && ["</ul></li>"][1..] == [];
    assert Concat(Texts([Closer])) == "</ul></li>" + "";
    assert Texts(opener) == [FragmentText(Opener(link.href, link.title))] && Texts(opener)[1..] == [];
    assert Concat(Texts(opener)) == FragmentText(Opener(link.href, link.title)) + "";
  }

  /** Anything that is neither a link nor a pair emits nothing. */
  lemma OtherHtml()
    ensures ItemsHtml([Other]) == ""
  {
  }

  /** The tree without the items the generator skips. */
  function Prune(items: seq<TocItem>): seq<TocItem>
    decreases items
  {
    if items == [] then []
    else
      (match items[0]
       case Link(_, _) => [items[0]]
       case Section(link, children) => [Section(link, Prune(children))]
       case Other => [])
      + Prune(items[1..])
  }

  /** Reads a tree back from yielded fragments, stopping before an unmatched closer; gives the
      items read and the fragments left over. */
  function Parse(fs: seq<Fragment>): (r: (seq<TocItem>, seq<Fragment>))
    ensures |r.1| <= |fs|
    decreases |fs|
  {
    if fs == [] then ([], [])
    else
      match fs[0]
      case Closer => ([], fs)
      case Entry(href, title) =>
        var (rest, left) := Parse(fs[1..]);
        ([Link(href, title)] + rest, left)
      case Opener(href, title) =>
        var (children, after) := Parse(fs[1..]);
        if after != [] && after[0] == Closer then
          var (rest, left) := Parse(after[1..]);
          ([Section(Heading(href, title), children)] + rest, left)
        else ([], fs)
  }

  /** The fragments determine the tree: reading back what the generator yields (followed by
      nothing or by a closer) gives the tree without its skipped items, and stops exactly at
      the end of those fragments. So the sequence of yielded fragments nests as the tree does.
      The joined text need not: see MarkupIsAmbiguous. */
  lemma {:induction false} ParseYields(items: seq<TocItem>, tail: seq<Fragment>)
    requires tail == [] || tail[0] == Closer
    ensures Parse(Yields(items) + tail) == (Prune(items), tail)
    decreases items
  {
    if items == [] {
      assert Yields(items) + tail == tail;
    } else {
      var rest := items[1..];
      assert items == [items[0]] + rest;
      ParseYields(rest, tail);
      match items[0]
      case Link(href, title) =>
        ParseEntry(href, title, rest, tail);
      case Other =>
        assert Yields(items) + tail == Yields(rest) + tail;
        assert Prune(items) == Prune(rest);
      case Section(link, children) =>
        ParseYields(children, [Closer] + (Yields(rest) + tail));
        ParseSection(link, children, rest, tail);
    }
  }

  /** The step of ParseYields for a link at the head of the list. */
  lemma ParseEntry(href: string, title: string, rest: seq<TocItem>, tail: seq<Fragment>)
    requires Parse(Yields(rest) + tail) == (Prune(rest), tail)
    ensures Parse(Yields([Link(href, title)] + rest) + tail) == (Prune([Link(href, title)] + rest), tail)
  {
    var items := [Link(href, title)] + rest;
    assert items[0] == Link(href, title) && items[1..] == rest;
    var fs := Yields(items) + tail;
    assert fs == [Entry(href, title)] + (Yields(rest) + tail);
    assert fs[1..] == Yields(rest) + tail;
  }

  /** Reading an opener: the children up to the matching closer, then the rest after it. */
  lemma ParseOpener(href: string, title: string, inner: seq<Fragment>, after: seq<Fragment>,
                    children: seq<TocItem>, rest: seq<TocItem>, left: seq<Fragment>)
    requires Parse(inner + after) == (children, after)
    requires after != [] && after[0] == Closer && Parse(after[1..]) == (rest, left)
    ensures Parse([Opener(href, title)] + (inner + after)) == ([Section(Heading(href, title), children)] + rest, left)
  {
    var fs := [Opener(href, title)] + (inner + after);
    assert fs[0] == Opener(href, title) && fs[1..] == inner + after;
  }

  /** What a (link, children) pair at the head of a list yields, followed by the rest. */
  lemma YieldsSection(link: Heading, children: seq<TocItem>, rest: seq<TocItem>)
    ensures Yields([Section(link, children)] + rest)
         == [Opener(link.href, link.title)] + Yields(children) + [Closer] + Yields(rest)
  {
    var items := [Section(link, children)] + rest;
    assert items[0] == Section(link, children) && items[1..] == rest;
  }

  /** The fragments of a (link, children) pair and the rest, followed by a tail, regrouped
      around the pair's closer. */
  lemma SectionFragments(link: Heading, children: seq<TocItem>, rest: seq<TocItem>, tail: seq<Fragment>)
    ensures Yields([Section(link, children)] + rest) + tail
         == [Opener(link.href, link.title)] + (Yields(children) + ([Closer] + (Yields(rest) + tail)))
  {
    YieldsSection(link, children, rest);
  }

  /** Pruning keeps a (link, children) pair, with its children pruned. */
  lemma PruneSection(link: Heading, children: seq<TocItem>, rest: seq<TocItem>)
    ensures Prune([Section(link, children)] + rest) == [Section(link, Prune(children))] + Prune(rest)
  {
    var items := [Section(link, children)] + rest;
    assert items[0] == Section(link, children) && items[1..] == rest;
  }

  /** The step of ParseYields for a (link, children) pair at the head of the list. */
  lemma ParseSection(link: Heading, children: seq<TocItem>, rest: seq<TocItem>, tail: seq<Fragment>)
    requires Parse(Yields(rest) + tail) == (Prune(rest), tail)
    requires Parse(Yields(children) + ([Closer] + (Yields(rest) + tail)))
          == (Prune(children), [Closer] + (Yields(rest) + tail))
    ensures Parse(Yields([Section(link, children)] + rest) + tail)
         == (Prune([Section(link, children)] + rest), tail)
  {
    var after := [Closer] + (Yields(rest) + tail);
    SectionFragments(link, children, rest, tail);
    assert after[1..] == Yields(rest) + tail;
    ParseOpener(link.href, link.title, Yields(children), after, Prune(children), Prune(rest), tail);
    PruneSection(link, children, rest);
    assert link == Heading(link.href, link.title);
  }

  /** Flattening a tree never yields an unmatched closer: the whole output reads back. */
  lemma FlatteningReadsBack(toc: seq<TocItem>)
    ensures Parse(Yields(toc)) == (Prune(toc), [])
  {
    ParseYields(toc, []);
    assert Yields(toc) + [] == Yields(toc);
  }

  /** Two links emit their two list items, one after the other. */
  lemma TwoLinksHtml(href1: string, title1: string, href2: string, title2: string)
    ensures ItemsHtml([Link(href1, title1), Link(href2, title2)])
         == ("<li><a href=\"#" + href1 + "\">" + title1 + "</a></li>")
            + ("<li><a href=\"#" + href2 + "\">" + title2 + "</a></li>")
  {
    LinkHtml(href1, title1);
    LinkHtml(href2, title2);
    assert [Link(href1, title1), Link(href2, title2)] == [Link(href1, title1)] + [Link(href2, title2)];
    ItemsHtmlAppend([Link(href1, title1)], [Link(href2, title2)]);
  }

  /** Moving a boundary from inside a title to between two items. */
  lemma Regroup(a: string, href1: string, b: string, title1: string, c: string, boundary: string,
                href2: string, title2: string)
    requires boundary == c + a
    ensures a + href1 + b + (title1 + boundary + href2 + b + title2) + c
         == (a + href1 + b + title1 + c) + (a + href2 + b + title2 + c)
  {
  }

  /** Titles and hrefs are interpolated without escaping, so different trees can give the same
      markup: a title holding the text of a link boundary reads like two links. */
  lemma MarkupIsAmbiguous(href1: string, title1: string, href2: string, title2: string)
    ensures ItemsHtml([Link(href1, title1 + "</a></li><li><a href=\"#" + href2 + "\">" + title2)])
         == ItemsHtml([Link(href1, title1), Link(href2, title2)])
  {
    var forged := title1 + "</a></li><li><a href=\"#" + href2 + "\">" + title2;
    LinkHtml(href1, forged);
    TwoLinksHtml(href1, title1, href2, title2);
    var a := "<li><a href=\"#";
    var b := "\">";
    var c := "</a></li>";
    var boundary := "</a></li><li><a href=\"#";
    BoundaryJoinsItems();
    Regroup(a, href1, b, title1, c, boundary, href2, title2);
  }

  /** The boundary between two link items is an item's end followed by the next one's start. */
  lemma BoundaryJoinsItems()
    ensures "</a></li><li><a href=\"#" == "</a></li>" + "<li><a href=\"#"
  {
  }
}
