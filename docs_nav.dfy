/** The docs site's page list and its previous/next links. The docs
    directory is given as a map from file name to the file's parsed front
    matter and body; a name that is not a key is a file that cannot be read. */
module DocsNav {
  import opened Text
  import opened Wrappers
  import SearchIndex

  /** The reading order of the documentation pages. */
  const DocsOrder: seq<string> := [
    "index", "installation", "requirements", "first-steps", "quick-reference",
    "configuration", "keybindings", "theming", "panel-families", "features",
    "modules", "config-options", "ipc", "workflows", "architecture",
    "contributing", "troubleshooting", "faq", "limitations", "comparison",
    "changelog"
  ]

  lemma OrderShape()
    ensures |DocsOrder| == 21 && DocsOrder[0] == "index" && DocsOrder[20] == "changelog"
  {
  }

  /** No page appears twice in the order. */
  lemma OrderDistinct()
    ensures forall i, j :: 0 <= i < j < |DocsOrder| ==> DocsOrder[i] != DocsOrder[j]
  {
  }

  /** What gray-matter yields for one file. */
  datatype FrontMatter = FrontMatter(title: Option<string>, description: Option<string>, content: string)

  /** The docs directory: file name to parsed file. */
  type DocsDir = map<string, FrontMatter>

  datatype DocMeta = DocMeta(slug: string, title: string, description: Option<string>)

  datatype Doc = Doc(slug: string, title: string, description: Option<string>, content: string)

  /** `slug || "index"` */
  function RealSlug(slug: string): string {
    if slug == "" then "index" else slug
  }

  /** `data.title || fallback` */
  function TitleOr(fm: FrontMatter, fallback: string): string {
    if fm.title.GetOr("") != "" then fm.title.value else fallback
  }

  /** getDocBySlug: None when `<realSlug>.mdx` cannot be read. */
  function GetDocBySlug(dir: DocsDir, slug: string): (d: Option<Doc>)
    ensures d.Some? <==> RealSlug(slug) + ".mdx" in dir
    ensures d.Some? ==> d.value.slug == slug
  {
    var realSlug := RealSlug(slug);
    var name := realSlug + ".mdx";
    if name in dir then
      var fm := dir[name];
      Some(Doc(slug, TitleOr(fm, realSlug), fm.description, fm.content))
    else None
  }

  /** `seq.indexOf(x)`: the first index of x, or -1. */
  function IndexOf(s: seq<string>, x: string): (i: int)
    ensures -1 <= i < |s|
    ensures i >= 0 ==> s[i] == x && forall j :: 0 <= j < i ==> s[j] != x
    ensures i < 0 ==> forall j :: 0 <= j < |s| ==> s[j] != x
  {
    if s == [] then -1
    else if s[0] == x then 0
    else
      var r := IndexOf(s[1..], x);
      if r < 0 then -1 else r + 1
  }

  lemma IndexOfOrder(k: int)
    requires 0 <= k < |DocsOrder|
    ensures IndexOf(DocsOrder, DocsOrder[k]) == k
  {
    OrderDistinct();
  }

  datatype Link = Link(title: string, href: string)

  datatype Navigation = Navigation(prev: Option<Link>, next: Option<Link>)

  /** The page address of an order entry. */
  function DocHref(orderSlug: string): (h: string)
    ensures StartsWith(h, "/docs")
  {
    if orderSlug == "index" then "/docs" else "/docs/" + orderSlug
  }

  /** The link to the neighbour at an order entry, when its file exists. */
  function NeighbourLink(dir: DocsDir, orderSlug: string): Option<Link> {
    var d := GetDocBySlug(dir, if orderSlug == "index" then "" else orderSlug);
    if d.Some? then Some(Link(d.value.title, DocHref(orderSlug))) else None
  }

  /** What getDocNavigation answers over a reading order. */
  function NavigationIn(order: seq<string>, dir: DocsDir, slug: string): Navigation {
    var i := IndexOf(order, RealSlug(slug));
    if i < 0 then Navigation(None, None)
    else
      Navigation(if i > 0 then NeighbourLink(dir, order[i - 1]) else None,
                 if i < |order| - 1 then NeighbourLink(dir, order[i + 1]) else None)
  }

  /** What getDocNavigation answers over the site's order. */
  function NavigationOf(dir: DocsDir, slug: string): Navigation {
    NavigationIn(DocsOrder, dir, slug)
  }

  /** getDocNavigation */
  method GetDocNavigation(dir: DocsDir, slug: string) returns (navigation: Navigation)
    ensures navigation == NavigationOf(dir, slug)
  {
    navigation := Navigate(DocsOrder, dir, slug);
  }

  /** The body of getDocNavigation, over the order it consults. */
  method Navigate(order: seq<string>, dir: DocsDir, slug: string) returns (navigation: Navigation)
    ensures navigation == NavigationIn(order, dir, slug)
  {
    var realSlug := if slug == "" then "index" else slug;
    var currentIndex := IndexOf(order, realSlug);
    if currentIndex == -1 {
      return Navigation(None, None);
    }
    navigation := Navigation(None, None);
    if currentIndex > 0 {
      var prevSlug := order[currentIndex - 1];
      var prevDoc := GetDocBySlug(dir, if prevSlug == "index" then "" else prevSlug);
      if prevDoc.Some? {
        navigation := navigation.(prev := Some(Link(prevDoc.value.title, if prevSlug == "index" then "/docs" else "/docs/" + prevSlug)));
      }
    }
    if currentIndex < |order| - 1 {
      var nextSlug := order[currentIndex + 1];
      var nextDoc := GetDocBySlug(dir, if nextSlug == "index" then "" else nextSlug);
      if nextDoc.Some? {
        navigation := navigation.(next := Some(Link(nextDoc.value.title, if nextSlug == "index" then "/docs" else "/docs/" + nextSlug)));
      }
    }
  }

  /** A page outside the order has no links, and the empty slug is the
      index page. */
  lemma NavigationUnknown(dir: DocsDir, slug: string)
    ensures (forall k :: 0 <= k < |DocsOrder| ==> DocsOrder[k] != RealSlug(slug)) ==> NavigationOf(dir, slug) == Navigation(None, None)
    ensures NavigationOf(dir, "") == NavigationOf(dir, "index")
  {
  }

  /** The first page has no previous link and the last no next link. */
  lemma NavigationEnds(dir: DocsDir)
    ensures NavigationOf(dir, "").prev.None? && NavigationOf(dir, "changelog").next.None?
  {
    IndexOfOrder(0);
    IndexOfOrder(20);
  }

  predicate Distinct(order: seq<string>) {
    forall i, j :: 0 <= i < j < |order| ==> order[i] != order[j]
  }

  /** Over an order without repeats, a link is present exactly when the
      neighbouring page's file exists, and it carries that page's title and
      address. */
  lemma LinksIn(order: seq<string>, dir: DocsDir, k: int)
    requires Distinct(order) && 0 <= k < |order| && order[k] != ""
    ensures var nav := NavigationIn(order, dir, order[k]);
            (nav.prev.Some? <==> k > 0 && RealSlug(if order[k - 1] == "index" then "" else order[k - 1]) + ".mdx" in dir)
            && (nav.next.Some? <==> k < |order| - 1 && RealSlug(if order[k + 1] == "index" then "" else order[k + 1]) + ".mdx" in dir)
            && (nav.prev.Some? ==> nav.prev.value.href == DocHref(order[k - 1]))
            && (nav.next.Some? ==> nav.next.value.href == DocHref(order[k + 1]))
  {
    assert IndexOf(order, order[k]) == k;
  }

  /** The same over the site's order, with the files named after the entries. */
  lemma NavigationLinks(dir: DocsDir, k: int)
    requires 0 <= k < |DocsOrder|
    ensures var nav := NavigationOf(dir, DocsOrder[k]);
            (nav.prev.Some? <==> k > 0 && DocsOrder[k - 1] + ".mdx" in dir)
            && (nav.next.Some? <==> k < |DocsOrder| - 1 && DocsOrder[k + 1] + ".mdx" in dir)
            && (nav.prev.Some? ==> nav.prev.value == Link(TitleOr(dir[DocsOrder[k - 1] + ".mdx"], DocsOrder[k - 1]), DocHref(DocsOrder[k - 1])))
            && (nav.next.Some? ==> nav.next.value == Link(TitleOr(dir[DocsOrder[k + 1] + ".mdx"], DocsOrder[k + 1]), DocHref(DocsOrder[k + 1])))
  {
    OrderNonEmpty();
    OrderDistinct();
    LinksIn(DocsOrder, dir, k);
  }

  /** If B is the next page of A and A's file exists, then A is B's
      previous page: the order has no repeats. */
  lemma NextPrevSymmetric(dir: DocsDir, k: int)
    requires 0 <= k < |DocsOrder| && DocsOrder[k] + ".mdx" in dir
    requires NavigationOf(dir, DocsOrder[k]).next.Some?
    ensures k + 1 < |DocsOrder|
    ensures NavigationOf(dir, DocsOrder[k]).next.value.href == DocHref(DocsOrder[k + 1])
    ensures NavigationOf(dir, DocsOrder[k + 1]).prev
            == Some(Link(TitleOr(dir[DocsOrder[k] + ".mdx"], DocsOrder[k]), DocHref(DocsOrder[k])))
  {
    NavigationLinks(dir, k);
    NavigationLinks(dir, k + 1);
  }

  lemma OrderNonEmpty()
    ensures forall k :: 0 <= k < |DocsOrder| ==> DocsOrder[k] != ""
  {
  }

  // ---------------------------------------------------------------- getAllDocs

  /** `fileName.replace(/\.mdx$/, "")`, then `index` as the empty slug. */
  function SlugOf(fileName: string): string
    requires EndsWith(fileName, ".mdx")
  {
    var slug := fileName[..|fileName| - 4];
    if slug == "index" then "" else slug
  }

  /** The pages and the search index derive a file's slug the same way. */
  lemma SlugAgrees(fileName: string)
    requires EndsWith(fileName, ".mdx")
    ensures SlugOf(fileName) == SearchIndex.RealSlug(fileName)
  {
  }

  function MetaOf(dir: DocsDir, fileName: string): DocMeta
    requires EndsWith(fileName, ".mdx") && fileName in dir
  {
    var fm := dir[fileName];
    DocMeta(SlugOf(fileName), TitleOr(fm, fileName[..|fileName| - 4]), fm.description)
  }

  /** Every `.mdx` name of the listing can be read. */
  predicate Listed(dir: DocsDir, listing: seq<string>) {
    forall i :: 0 <= i < |listing| && EndsWith(listing[i], ".mdx") ==> listing[i] in dir
  }

  /** getAllDocs over the directory listing. */
  function AllDocs(dir: DocsDir, listing: seq<string>): (ds: seq<DocMeta>)
    requires Listed(dir, listing)
    ensures |ds| <= |listing|
  {
    if listing == [] then []
    else
      var last := listing[|listing| - 1];
      AllDocs(dir, listing[..|listing| - 1]) + (if EndsWith(last, ".mdx") then [MetaOf(dir, last)] else [])
  }

  /** getAllDocsWithContent over the directory listing. */
  function AllDocsWithContent(dir: DocsDir, listing: seq<string>): (ds: seq<Doc>)
    requires Listed(dir, listing)
    ensures |ds| <= |listing|
  {
    if listing == [] then []
    else
      var last := listing[|listing| - 1];
      var more := if EndsWith(last, ".mdx") then
                    var m := MetaOf(dir, last);
                    [Doc(m.slug, m.title, m.description, dir[last].content)]
                  else [];
      AllDocsWithContent(dir, listing[..|listing| - 1]) + more
  }

  /** Both listings hold the same pages with the same slugs, titles and
      descriptions. */
  lemma {:induction false} WithContentAgrees(dir: DocsDir, listing: seq<string>)
    requires Listed(dir, listing)
    ensures |AllDocsWithContent(dir, listing)| == |AllDocs(dir, listing)|
    ensures forall i :: 0 <= i < |AllDocs(dir, listing)| ==>
              var d := AllDocsWithContent(dir, listing)[i];
              AllDocs(dir, listing)[i] == DocMeta(d.slug, d.title, d.description)
  {
    if listing != [] {
      WithContentAgrees(dir, listing[..|listing| - 1]);
    }
  }

  /** A listed page comes from an `.mdx` file: its slug is the name without
      `.mdx` (`index` as the empty slug) and its title the front-matter title
      or that name. */
  lemma {:induction false} AllDocsSound(dir: DocsDir, listing: seq<string>, i: int) returns (k: int)
    requires Listed(dir, listing) && 0 <= i < |AllDocs(dir, listing)|
    ensures 0 <= k < |listing| && EndsWith(listing[k], ".mdx") && listing[k] in dir
    ensures AllDocs(dir, listing)[i] == MetaOf(dir, listing[k])
  {
    var init := listing[..|listing| - 1];
    if i < |AllDocs(dir, init)| {
      k := AllDocsSound(dir, init, i);
      assert init[k] == listing[k];
    } else {
      k := |listing| - 1;
    }
  }

  /** A page's slug leads back to its own file through getDocBySlug, with
      the same title and description (a file named just `.mdx` excepted:
      its empty slug leads to `index.mdx`). */
  lemma SlugRoundTrip(dir: DocsDir, fileName: string)
    requires EndsWith(fileName, ".mdx") && fileName in dir && fileName != ".mdx"
    ensures var m := MetaOf(dir, fileName);
            GetDocBySlug(dir, m.slug) == Some(Doc(m.slug, m.title, m.description, dir[fileName].content))
  {
    var base := fileName[..|fileName| - 4];
    assert fileName[|fileName| - 4..] == ".mdx";
    assert base + ".mdx" == fileName;
    if base == "index" {
      assert RealSlug("") + ".mdx" == fileName;
    } else {
      assert base != "";
      assert RealSlug(base) == base;
    }
  }
}
