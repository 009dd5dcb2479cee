/**
  * The navigation sidebar: its menu, the titles of the expanded groups,
  * which links are highlighted for the current path, and when a group's
  * links are listed.
  */
module Sidebar {
  import opened Strings
  import opened Seqs

  datatype MenuLink = MenuLink(title: string, href: string)

  /** A menu entry; an entry without sub-links has an empty `children`. */
  datatype MenuItem = MenuItem(title: string, href: string, children: seq<MenuLink>)

  function MenuItems(): seq<MenuItem>
  {
    [ MenuItem("Dashboard", "/", []),
      MenuItem("Users", "/users", []),
      MenuItem("Content", "/content",
        [ MenuLink("All Content", "/content"),
          MenuLink("Subjects", "/content/subjects"),
          MenuLink("Media Library", "/content/media") ]),
      MenuItem("Past Papers", "/past-papers", []),
      MenuItem("Analytics", "/analytics", []),
      MenuItem("System", "/system", []) ]
  }

  /** `toggleExpanded(title)`'s new list: every copy of `title` goes, or it is appended. */
  function Toggled(expanded: seq<string>, title: string): seq<string>
  {
    if title in expanded then RemoveAll(expanded, title) else expanded + [title]
  }

  /** Toggling flips whether `title` is expanded and leaves every other title as it was. */
  lemma ToggledSpec(expanded: seq<string>, title: string)
    ensures title in Toggled(expanded, title) <==> title !in expanded
    ensures forall t :: t != title ==> (t in Toggled(expanded, title) <==> t in expanded)
  {
  }

  /**
    * Toggling twice restores membership; when the title was collapsed it
    * restores the list itself.
    */
  lemma ToggleTwice(expanded: seq<string>, title: string)
    ensures forall t :: t in Toggled(Toggled(expanded, title), title) <==> t in expanded
    ensures title !in expanded ==> Toggled(Toggled(expanded, title), title) == expanded
  {
    if title !in expanded {
      RemoveAllAppend(expanded, [title], title);
      assert RemoveAll([title], title) == [];
    }
  }

  /** A list without repeats stays without repeats. */
  lemma ToggleKeepsNoDuplicates(expanded: seq<string>, title: string)
    requires NoDuplicates(expanded)
    ensures NoDuplicates(Toggled(expanded, title))
  {
    if title in expanded {
      RemoveAllKeepsNoDuplicates(expanded, title);
    } else {
      var r := expanded + [title];
      forall i, j | 0 <= i < j < |r| ensures r[i] != r[j] {
        if j == |expanded| {
          assert r[i] in expanded;
        }
      }
    }
  }

  /** `isActive(href)`: the dashboard link only on `/` itself, any other link on every path under it. */
  predicate IsActive(pathname: string, href: string)
  {
    if href == "/" then pathname == "/" else StartsWith(pathname, href)
  }

  /**
    * The dashboard link is active only on `/`; a section link is active on
    * its own path and every deeper one, so "All Content" stays highlighted
    * on the subjects and media pages.
    */
  lemma IsActiveSpec(pathname: string, href: string, rest: string)
    ensures IsActive(pathname, "/") <==> pathname == "/"
    ensures href != "/" ==> IsActive(href + rest, href)
    ensures IsActive("/content/media", "/content") && IsActive("/content/subjects", "/content")
  {
    assert (href + rest)[..|href|] == href;
    assert "/content/media"[..|"/content"|] == "/content";
    assert "/content/subjects"[..|"/content"|] == "/content";
  }

  /** `hasChildren && isExpanded && !collapsed` */
  predicate ShowsChildren(item: MenuItem, expanded: seq<string>, collapsed: bool)
  {
    |item.children| > 0 && item.title in expanded && !collapsed
  }

  /**
    * With the initial expanded list and the sidebar open, only the
    * "Content" group lists its links; collapsed, none does.
    */
  lemma InitialChildren()
    ensures forall i :: 0 <= i < |MenuItems()| ==>
      (ShowsChildren(MenuItems()[i], ["Content"], false) <==> MenuItems()[i].title == "Content")
    ensures forall i :: 0 <= i < |MenuItems()| ==> !ShowsChildren(MenuItems()[i], ["Content"], true)
  {
  }

  class Navigation {
    var expandedItems: seq<string>

    constructor()
      ensures expandedItems == ["Content"]
    {
      expandedItems := ["Content"];
    }

    /** `toggleExpanded(title)` */
    method ToggleExpanded(title: string)
      modifies this
      ensures expandedItems == Toggled(old(expandedItems), title)
      ensures NoDuplicates(old(expandedItems)) ==> NoDuplicates(expandedItems)
    {
      if NoDuplicates(expandedItems) {
        ToggleKeepsNoDuplicates(expandedItems, title);
      }
      expandedItems := Toggled(expandedItems, title);
    }
  }
}
