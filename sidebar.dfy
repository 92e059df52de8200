/**
 * The shared side menu (components/sidebar.js): which sidebar file and icon
 * a page uses, which page is current, and which menu entry is active.
 */
module Sidebar {
  import opened Wrappers
  import opened Text

  const ComponentsDir := "/components/"
  const ActiveClass := "active"
  const DefaultPage := "index.html"

  /** The sidebar file to fetch: relative to the components folder when the page is inside it. */
  function SidebarPath(pathname: string): (r: string)
    ensures r == "./sidebar.html" <==> Occurs(pathname, ComponentsDir)
    ensures r == "./components/sidebar.html" <==> !Occurs(pathname, ComponentsDir)
  {
    ContainsOccurs(pathname, ComponentsDir);
    if Contains(pathname, ComponentsDir) then "./sidebar.html" else "./components/sidebar.html"
  }

  /** The icon of the fallback menu, chosen by the same rule. */
  function IconPath(pathname: string): (r: string)
    ensures r == "../images/guara-icon.png" <==> Occurs(pathname, ComponentsDir)
    ensures r == "./images/guara-icon.png" <==> !Occurs(pathname, ComponentsDir)
  {
    ContainsOccurs(pathname, ComponentsDir);
    if Contains(pathname, ComponentsDir) then "../images/guara-icon.png" else "./images/guara-icon.png"
  }

  /** `pathname.split('/').pop() || 'index.html'`. */
  function CurrentPage(pathname: string): (r: string)
    ensures r != "" && FreeOf(r, '/')
    ensures r == DefaultPage || EndsWith(pathname, r)
    ensures r != DefaultPage && Contains(pathname, "/") ==> EndsWith(pathname, "/" + r)
  {
    var pieces := Split(pathname, "/");
    SplitLast(pathname, "/");
    SplitPiecesFree(pathname, "/");
    var last := Last(pieces);
    NotContainsChar(last, '/');
    assert FreeOf(DefaultPage, '/');
    if last != "" then last else DefaultPage
  }

  /** The text after the last '/' is the current page whenever it is not empty. */
  lemma CurrentPageOf(dir: string, page: string)
    requires page != "" && FreeOf(page, '/')
    ensures CurrentPage(dir + "/" + page) == page
  {
    var p := dir + "/" + page;
    var pieces := Split(p, "/");
    SplitShape(p, "/");
    SplitLast(p, "/");
    SplitPiecesFree(p, "/");
    assert OccursAt(p, "/", |dir|) by {
      assert p[|dir|..|dir| + 1] == "/";
    }
    ContainsOccurs(p, "/");
    assert |pieces| > 1;
    var last := Last(pieces);
    NotContainsChar(last, '/');
    assert EndsWith(p, "/" + page) by {
      assert p[|p| - |"/" + page|..] == "/" + page;
    }
    SuffixAfterLast(p, '/', last, page);
  }

  /** An empty pathname puts the user on the home page. */
  lemma CurrentPageEmpty()
    ensures CurrentPage("") == DefaultPage
  {
    SplitShape("", "/");
  }

  /** A pathname ending in '/' puts the user on the home page. */
  lemma CurrentPageDefault(dir: string)
    ensures CurrentPage(dir + "/") == DefaultPage
  {
    var p := dir + "/";
    SplitLast(p, "/");
    SplitPiecesFree(p, "/");
    var last := Last(Split(p, "/"));
    if last != "" {
      assert EndsWith(p, last);
      assert p[|p| - 1] == '/' == last[|last| - 1];
      NotContainsChar(last, '/');
    }
  }

  /** A menu link and its `href` attribute, if it has one. */
  datatype Link = Link(href: Option<string>)

  /** A `.main-nav li`: its link, if it has one, and its class list. */
  datatype NavItem = NavItem(link: Option<Link>, classes: set<string>)

  /** One step of `setupNavigation`'s loop: a linked item is active exactly when its href is the current page. */
  function WithActive(item: NavItem, currentPage: string): (r: NavItem)
    ensures r.link == item.link
    ensures item.link.None? ==> r == item
    ensures item.link.Some? ==>
      r.classes - {ActiveClass} == item.classes - {ActiveClass} &&
      (ActiveClass in r.classes <==> item.link.value.href == Some(currentPage))
  {
    if item.link.None? then item
    else if item.link.value.href == Some(currentPage) then item.(classes := item.classes + {ActiveClass})
    else item.(classes := item.classes - {ActiveClass})
  }

  /** Marking is idempotent: running the loop again for the same page changes nothing. */
  lemma WithActiveIdempotent(item: NavItem, currentPage: string)
    ensures WithActive(WithActive(item, currentPage), currentPage) == WithActive(item, currentPage)
  {
  }

  /** The links' hrefs are pairwise distinct. */
  ghost predicate DistinctHrefs(items: seq<NavItem>)
  {
    forall i, j :: 0 <= i < j < |items| && items[i].link.Some? && items[j].link.Some? && items[i].link.value.href.Some? ==>
      items[i].link.value.href != items[j].link.value.href
  }

  /** The five entries of the fallback menu: home, library, store, achievements, settings. */
  const FallbackHrefs: seq<string> := ["index.html", "biblioteca.html", "loja.html", "conquistas.html", "configuracoes.html"]

  function FallbackItems(): (r: seq<NavItem>)
    ensures |r| == 5
    ensures forall i :: 0 <= i < 5 ==> r[i] == NavItem(Some(Link(Some(FallbackHrefs[i]))), {})
  {
    seq(5, i requires 0 <= i < 5 => NavItem(Some(Link(Some(FallbackHrefs[i]))), {}))
  }

  /** The fallback menu's hrefs are pairwise distinct. */
  lemma FallbackHrefsDistinct()
    ensures DistinctHrefs(FallbackItems())
  {
    var r := FallbackItems();
    forall i, j | 0 <= i < j < 5
      ensures FallbackHrefs[i] != FallbackHrefs[j]
    {
      var h := FallbackHrefs;
      assert |h[0]| == 10 && |h[1]| == 15 && |h[2]| == 9 && |h[3]| == 15 && |h[4]| == 18;
      assert h[1][0] == 'b' && h[3][0] == 'c';
    }
  }

  /** The side menu of a page. */
  class Menu {
    /** Whether the page has a `.sidebar` container at all. */
    const hasContainer: bool
    var items: seq<NavItem>
    /** The icon shown in the header of the fallback menu, once it is built. */
    var icon: Option<string>

    constructor (hasContainer: bool)
      ensures this.hasContainer == hasContainer && items == [] && icon == None
    {
      this.hasContainer := hasContainer;
      items := [];
      icon := None;
    }

    /** Exactly the linked items whose href is the current page are active; every other class and every unlinked item is kept. */
    ghost predicate MarkedFor(before: seq<NavItem>, currentPage: string)
      reads this
    {
      && |items| == |before|
      && (forall i :: 0 <= i < |items| ==> items[i].link == before[i].link)
      && (forall i :: 0 <= i < |items| ==> items[i].classes - {ActiveClass} == before[i].classes - {ActiveClass})
      && (forall i :: 0 <= i < |items| && before[i].link.None? ==> items[i] == before[i])
      && (forall i :: 0 <= i < |items| && before[i].link.Some? ==>
            (ActiveClass in items[i].classes <==> before[i].link.value.href == Some(currentPage)))
    }

    /** `setupNavigation()`. */
    method SetupNavigation(pathname: string)
      modifies this
      ensures items == seq(|old(items)|, i requires 0 <= i < |old(items)| => WithActive(old(items)[i], CurrentPage(pathname)))
      ensures MarkedFor(old(items), CurrentPage(pathname)) && icon == old(icon)
    {
      var currentPage := CurrentPage(pathname);
      var i := 0;
      while i < |items|
        invariant 0 <= i <= |items| == |old(items)| && icon == old(icon)
        invariant forall k :: 0 <= k < i ==> items[k] == WithActive(old(items)[k], currentPage)
        invariant forall k :: i <= k < |items| ==> items[k] == old(items)[k]
      {
        items := items[i := WithActive(items[i], currentPage)];
        i := i + 1;
      }
    }

    /** `loadSidebarFallback()`: the built-in menu with its icon, then the navigation marks. */
    method LoadSidebarFallback(pathname: string)
      modifies this
      ensures !hasContainer ==> items == old(items) && icon == old(icon)
      ensures hasContainer ==> icon == Some(IconPath(pathname)) && MarkedFor(FallbackItems(), CurrentPage(pathname))
    {
      if hasContainer {
        icon := Some(IconPath(pathname));
        items := FallbackItems();
        SetupNavigation(pathname);
      }
    }

    /**
     * `includeSidebar()`: requests the sidebar file chosen by `SidebarPath`.
     * `fetched` is the outcome of that request: the menu items of the loaded
     * file, or `None` when loading failed.
     */
    method IncludeSidebar(pathname: string, fetched: Option<seq<NavItem>>) returns (requested: Option<string>)
      modifies this
      ensures !hasContainer ==> requested == None && items == old(items) && icon == old(icon)
      ensures hasContainer ==> requested == Some(SidebarPath(pathname))
      ensures hasContainer && fetched.Some? ==> MarkedFor(fetched.value, CurrentPage(pathname)) && icon == old(icon)
      ensures hasContainer && fetched.None? ==> icon == Some(IconPath(pathname)) && MarkedFor(FallbackItems(), CurrentPage(pathname))
    {
      if !hasContainer {
        return None;
      }
      requested := Some(SidebarPath(pathname));
      if fetched.Some? {
        items := fetched.value;
        SetupNavigation(pathname);
      } else {
        LoadSidebarFallback(pathname);
      }
    }
  }

  /** When the hrefs are distinct, marking leaves at most one item active among those with links. */
  lemma AtMostOneActive(items: seq<NavItem>, currentPage: string)
    requires DistinctHrefs(items)
    ensures forall i, j ::
      (0 <= i < j < |items| && items[i].link.Some? && items[j].link.Some? &&
       ActiveClass in WithActive(items[i], currentPage).classes) ==>
        ActiveClass !in WithActive(items[j], currentPage).classes
  {
  }

  /** In the fallback menu exactly one item is active when the current page is one of its five, and none otherwise. */
  lemma FallbackActive(pathname: string)
    ensures var page := CurrentPage(pathname);
      forall i :: 0 <= i < 5 ==> (ActiveClass in WithActive(FallbackItems()[i], page).classes <==> FallbackHrefs[i] == page)
  {
  }
}
