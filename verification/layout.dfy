/** The page frame: the sidebar's `navigation` table, the active-item test, and the header
    title. Icons are left out. */
module Layout {
  import opened Wrappers
  import Seqs

  datatype NavItem = NavItem(name: string, href: string)

  /** The sidebar entries, in display order. */
  const Navigation: seq<NavItem> := [
    NavItem("Dashboard", "/"),
    NavItem("Residents", "/residents"),
    NavItem("Households", "/households"),
    NavItem("Officials", "/officials"),
    NavItem("Ordinances", "/ordinances"),
    NavItem("Activities", "/activities"),
    NavItem("Reports", "/reports"),
    NavItem("Settings", "/settings")
  ]

  function Hrefs(items: seq<NavItem>): (r: seq<string>)
    ensures |r| == |items|
    ensures forall i :: 0 <= i < |items| ==> r[i] == items[i].href
  {
    seq(|items|, i requires 0 <= i < |items| => items[i].href)
  }

  /** The table has eight entries, no two sharing an href, and every name is non-empty. */
  lemma NavigationWellFormed()
    ensures |Navigation| == 8
    ensures Seqs.NoDuplicates(Hrefs(Navigation))
    ensures forall i :: 0 <= i < |Navigation| ==> Navigation[i].name != ""
  {
    var h := Hrefs(Navigation);
    assert h == ["/", "/residents", "/households", "/officials", "/ordinances", "/activities", "/reports", "/settings"];
  }

  /** `location.pathname === item.href`: an exact match, with no prefix matching. */
  predicate IsActive(item: NavItem, pathname: string) {
    pathname == item.href
  }

  function IsActiveAt(pathname: string): NavItem -> bool {
    (item: NavItem) => IsActive(item, pathname)
  }

  /** For any pathname at most one sidebar entry is highlighted. */
  lemma AtMostOneActive(pathname: string, i: int, j: int)
    requires 0 <= i < |Navigation| && 0 <= j < |Navigation|
    requires IsActive(Navigation[i], pathname) && IsActive(Navigation[j], pathname)
    ensures i == j
  {
    NavigationWellFormed();
    var h := Hrefs(Navigation);
    assert h[i] == h[j];
  }

  /** `navigation.find(item => item.href === pathname)?.name || "Dashboard"`. */
  function HeaderTitle(pathname: string): (title: string)
    ensures title != ""
  {
    match Seqs.Find(Navigation, IsActiveAt(pathname))
    case Some(item) => if item.name != "" then item.name else "Dashboard"
    case None => "Dashboard"
  }

  /** The header names the highlighted entry, and falls back to "Dashboard" when none is. */
  lemma HeaderTitleNamesActiveItem(pathname: string)
    ensures forall i :: 0 <= i < |Navigation| && IsActive(Navigation[i], pathname) ==> HeaderTitle(pathname) == Navigation[i].name
    ensures (forall i :: 0 <= i < |Navigation| ==> !IsActive(Navigation[i], pathname)) ==> HeaderTitle(pathname) == "Dashboard"
  {
    NavigationWellFormed();
    var k := Seqs.FirstIndex(Navigation, IsActiveAt(pathname));
    forall i | 0 <= i < |Navigation| && IsActive(Navigation[i], pathname)
      ensures HeaderTitle(pathname) == Navigation[i].name
    {
      assert IsActiveAt(pathname)(Navigation[i]);
      assert k < |Navigation|;
      AtMostOneActive(pathname, i, k);
    }
  }

  /** A nested route such as "/residents/42" highlights nothing and is titled "Dashboard". */
  lemma NestedRouteHasNoActiveItem()
    ensures forall i :: 0 <= i < |Navigation| ==> !IsActive(Navigation[i], "/residents/42")
    ensures HeaderTitle("/residents/42") == "Dashboard"
  {
    HeaderTitleNamesActiveItem("/residents/42");
  }
}
