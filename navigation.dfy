/** The highlighting of the current page in the main navigation
    (index.tsx lines 171-188): the page is the last segment of the address's
    path, or "index.html" when that segment is empty; every link to that page
    is marked active, and so is the toggle of the dropdown holding it. */
module Navigation {
  import opened Wrappers
  import opened Text

  const INDEX_PAGE := "index.html"

  /** `pathname.split('/').pop() || 'index.html'`. */
  function CurrentPage(path: string): (page: string)
    ensures page != "" && '/' !in page
    ensures AfterLast(path, '/') != "" ==> page == AfterLast(path, '/')
  {
    IndexPageIsSegment();
    var last := AfterLast(path, '/');
    if last == "" then INDEX_PAGE else last
  }

  lemma IndexPageIsSegment()
    ensures INDEX_PAGE != "" && '/' !in INDEX_PAGE
  {
  }

  /** The page is the last element of the path split at '/', unless that
      element is empty. */
  lemma CurrentPageIsLastSegment(path: string)
    ensures var parts := Split(path, '/');
      parts[|parts| - 1] != "" ==> CurrentPage(path) == parts[|parts| - 1]
    ensures var parts := Split(path, '/');
      parts[|parts| - 1] == "" ==> CurrentPage(path) == INDEX_PAGE
  {
    AfterLastIsLastPart(path, '/');
  }

  /** The site root and a path ending in '/' both stand for the home page;
      otherwise the page is what follows the last '/'. */
  lemma CurrentPageExamples()
    ensures CurrentPage("/") == INDEX_PAGE
    ensures CurrentPage("") == INDEX_PAGE
    ensures CurrentPage("/agenda.html") == "agenda.html"
    ensures CurrentPage("/site/agenda.html") == "agenda.html"
  {
    AfterLastUnique("/", '/', "");
    AgendaPage("/agenda.html");
    AgendaPage("/site/agenda.html");
  }

  /** A path whose last '/' is followed by "agenda.html" names that page. */
  lemma AgendaPage(path: string)
    requires path in {"/agenda.html", "/site/agenda.html"}
    ensures CurrentPage(path) == "agenda.html"
  {
    var k := |path| - |"agenda.html"|;
    assert path[k - 1] == '/' && path[k..] == "agenda.html";
    AfterLastUnique(path, '/', "agenda.html");
  }

  /** `href.split('/').pop()` of a link. */
  function LinkPage(href: string): (page: string)
    ensures '/' !in page
  {
    AfterLast(href, '/')
  }

  /** The page of every link, in order. */
  function LinkPages(hrefs: seq<string>): (pages: seq<string>)
    ensures |pages| == |hrefs|
  {
    seq(|hrefs|, i requires 0 <= i < |hrefs| => LinkPage(hrefs[i]))
  }

  /** Link `i`, whose page is `pages[i]`, points to `page` and marks link
      `j`: itself, or the toggle of the dropdown it sits in. */
  predicate Marks(pages: seq<string>, parent: seq<Option<nat>>, page: string, i: nat, j: nat)
    requires i < |pages| && |parent| == |pages|
  {
    pages[i] == page && (j == i || parent[i] == Some(j))
  }

  /** One of the first `k` links marks link `j`. */
  predicate MarkedBy(pages: seq<string>, parent: seq<Option<nat>>, page: string, k: nat, j: nat)
    requires k <= |pages| && |parent| == |pages|
  {
    exists m :: 0 <= m < k && Marks(pages, parent, page, m, j)
  }

  lemma MarkedByStep(pages: seq<string>, parent: seq<Option<nat>>, page: string, k: nat, j: nat)
    requires k < |pages| && |parent| == |pages|
    ensures MarkedBy(pages, parent, page, k + 1, j) <==>
      MarkedBy(pages, parent, page, k, j) || Marks(pages, parent, page, k, j)
  {
    if MarkedBy(pages, parent, page, k + 1, j) {
      var m :| 0 <= m < k + 1 && Marks(pages, parent, page, m, j);
      if m < k {
        assert MarkedBy(pages, parent, page, k, j);
      }
    }
  }

  /** The main navigation's links: each one's address, the link of the
      dropdown toggle above it (if it sits in a dropdown), and which are
      marked active. */
  class NavBar {
    const hrefs: seq<string>
    const pages: seq<string>
    const parent: seq<Option<nat>>
    const active: array<bool>

    /** The links with their pages, `href.split('/').pop()`, none active. */
    constructor (links: seq<string>, parents: seq<Option<nat>>)
      requires |parents| == |links|
      ensures hrefs == links && pages == LinkPages(links) && parent == parents && fresh(active)
      ensures active.Length == |links| && forall j :: 0 <= j < active.Length ==> !active[j]
    {
      hrefs := links;
      pages := LinkPages(links);
      parent := parents;
      active := new bool[|links|](j => false);
    }

    /** The body of the loop for link `i`: mark it and its dropdown's toggle
        when it points to `page`. */
    method MarkLink(page: string, i: nat)
      requires |parent| == |pages| == active.Length && i < |pages|
      requires parent[i].Some? ==> parent[i].value < active.Length
      modifies active
      ensures forall j :: 0 <= j < active.Length ==> (active[j] <==> old(active[j]) || Marks(pages, parent, page, i, j))
    {
      if pages[i] == page {
        active[i] := true;
        if parent[i].Some? {
          active[parent[i].value] := true;
        }
      }
    }

    /** `highlightActiveNav` on the page at `path`: a link ends up active
        exactly when it was, or some link to the current page marks it. */
    method Highlight(path: string)
      requires |parent| == |pages| == active.Length
      requires forall i :: 0 <= i < |parent| && parent[i].Some? ==> parent[i].value < active.Length
      modifies active
      ensures forall j :: 0 <= j < active.Length ==>
        (active[j] <==> old(active[j]) || MarkedBy(pages, parent, CurrentPage(path), |pages|, j))
    {
      var page := CurrentPage(path);
      for i := 0 to |pages|
        invariant forall j :: 0 <= j < active.Length ==> (active[j] <==> old(active[j]) || MarkedBy(pages, parent, page, i, j))
      {
        MarkLink(page, i);
        forall j | 0 <= j < active.Length
          ensures MarkedBy(pages, parent, page, i + 1, j) <==> MarkedBy(pages, parent, page, i, j) || Marks(pages, parent, page, i, j)
        {
          MarkedByStep(pages, parent, page, i, j);
        }
      }
    }
  }
}
