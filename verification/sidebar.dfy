/**
 * Frontend/src/components/MentalHealthSidebar.tsx: which menu entry is
 * highlighted for the current path, and the collapse toggle.
 */
module Sidebar {
  import opened Common

  datatype MenuItem = MenuItem(title: string, url: string, description: string)

  /** The fixed `menuItems`, in display order. */
  const MenuItems: seq<MenuItem> := [
    MenuItem("Dashboard", "/", "Overview & AI Support"),
    MenuItem("Appointments", "/appointments", "Book counselling sessions"),
    MenuItem("Messages", "/messages", "Chat with counsellors"),
    MenuItem("Forum", "/forum", "Peer support community"),
    MenuItem("Resources", "/resources", "Wellness materials"),
    MenuItem("Settings", "/settings", "Account preferences")
  ]

  /**
   * `isActive`: the root entry only on exactly "/", any other entry whenever
   * the path starts with its url (no segment boundary is required).
   */
  function IsActive(pathname: string, url: string): (b: bool)
    ensures url == "/" ==> (b <==> pathname == "/")
    ensures url != "/" ==> (b <==> |url| <= |pathname| && pathname[..|url|] == url)
  {
    if url == "/" then pathname == "/" else StartsWith(pathname, url)
  }

  /** The highlighted entries for a path. */
  function ActiveItems(pathname: string): seq<MenuItem> {
    Filter((item: MenuItem) => IsActive(pathname, item.url), MenuItems)
  }

  /** Two different non-root urls of the menu are never prefixes of one another. */
  lemma MenuUrlsPrefixFree(i: nat, j: nat)
    requires 1 <= i < |MenuItems| && 1 <= j < |MenuItems| && i != j
    ensures !StartsWith(MenuItems[j].url, MenuItems[i].url)
  {
    var u := MenuItems[i].url;
    var v := MenuItems[j].url;
    if |u| <= |v| {
      assert v[1] != u[1] || v[2] != u[2];
      assert v[..|u|][1] == v[1] && v[..|u|][2] == v[2];
    }
  }

  /** For every path, no two entries of the menu are highlighted at once. */
  lemma AtMostOneActive(pathname: string)
    ensures forall i, j :: 0 <= i < j < |MenuItems| ==>
      !(IsActive(pathname, MenuItems[i].url) && IsActive(pathname, MenuItems[j].url))
    ensures |ActiveItems(pathname)| <= 1
  {
    forall i, j | 0 <= i < j < |MenuItems|
      ensures !(IsActive(pathname, MenuItems[i].url) && IsActive(pathname, MenuItems[j].url))
    {
      var u := MenuItems[i].url;
      var v := MenuItems[j].url;
      if i != 0 && IsActive(pathname, u) && IsActive(pathname, v) {
        if |u| <= |v| {
          CommonPrefixes(pathname, u, v);
          MenuUrlsPrefixFree(i, j);
        } else {
          CommonPrefixes(pathname, v, u);
          MenuUrlsPrefixFree(j, i);
        }
      }
    }
    FilterAtMostOne((item: MenuItem) => IsActive(pathname, item.url), MenuItems);
  }

  /** A path below an entry's url highlights it, and so does any longer name. */
  lemma PrefixMatchingExamples()
    ensures IsActive("/appointments/x", "/appointments")
    ensures IsActive("/forumx", "/forum")
    ensures !IsActive("/forum", "/")
    ensures IsActive("/", "/")
  {
    assert "/appointments/x"[..|"/appointments"|] == "/appointments";
    assert "/forumx"[..|"/forum"|] == "/forum";
  }

  /** One rendered menu link: its target, whether it is highlighted, and its texts when expanded. */
  datatype NavEntry = NavEntry(url: string, active: bool, texts: Option<(string, string)>)

  /** What the sidebar shows for a path and a collapse state. */
  datatype View = View(
    width: string,
    showHeader: bool,
    toggleIcon: string,
    entries: seq<NavEntry>,
    showFooter: bool
  )

  /**
   * The sidebar's markup: one link per menu item, highlighted by `isActive`;
   * collapsing narrows it and hides the header, the link texts and the
   * footer, and swaps the toggle's icon.
   */
  function Render(pathname: string, collapsed: bool): (v: View)
    ensures |v.entries| == |MenuItems|
    ensures forall i :: 0 <= i < |MenuItems| ==>
      && v.entries[i].url == MenuItems[i].url
      && v.entries[i].active == IsActive(pathname, MenuItems[i].url)
      && (v.entries[i].texts.Some? <==> !collapsed)
      && (!collapsed ==> v.entries[i].texts.value == (MenuItems[i].title, MenuItems[i].description))
    ensures v.showHeader == !collapsed && v.showFooter == !collapsed
    ensures v.width == (if collapsed then "w-16" else "w-64")
    ensures v.toggleIcon == (if collapsed then "Menu" else "X")
  {
    var entries := seq(|MenuItems|, i requires 0 <= i < |MenuItems| =>
      NavEntry(MenuItems[i].url, IsActive(pathname, MenuItems[i].url),
               if collapsed then None else Some((MenuItems[i].title, MenuItems[i].description))));
    View(if collapsed then "w-16" else "w-64", !collapsed, if collapsed then "Menu" else "X", entries, !collapsed)
  }

  /** The collapse button: `setIsCollapsed(!isCollapsed)`. */
  function Toggle(collapsed: bool): bool {
    !collapsed
  }

  /**
   * Collapsing or expanding changes only what is shown, never what is
   * highlighted: the same links in the same order with the same highlight,
   * the texts hidden or shown, at most one link highlighted in either
   * state, and a second click restores the first view.
   */
  lemma ToggleKeepsHighlight(pathname: string, collapsed: bool)
    ensures var a := Render(pathname, collapsed);
      var b := Render(pathname, Toggle(collapsed));
      && |a.entries| == |b.entries|
      && (forall i :: 0 <= i < |a.entries| ==>
            a.entries[i].url == b.entries[i].url && a.entries[i].active == b.entries[i].active)
      && (forall i :: 0 <= i < |a.entries| ==> (a.entries[i].texts.Some? <==> b.entries[i].texts.None?))
      && (forall i, j :: 0 <= i < j < |b.entries| ==> !(b.entries[i].active && b.entries[j].active))
      && Render(pathname, Toggle(Toggle(collapsed))) == a
  {
    AtMostOneActive(pathname);
  }
}
