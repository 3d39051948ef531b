/**
 * The page title `MainLayout` shows in the header: any path under
 * `/designs/` except `/designs/new` is an edit page; every other path is
 * looked up in a fixed table, and an unknown path is titled `Dashboard`.
 */
module Layout {
  import opened Strings

  const EditDesign: string := "Edit Design"
  const DashboardTitle: string := "Dashboard"
  const DesignsPrefix: string := "/designs/"
  const NewDesignPath: string := "/designs/new"

  /** `pageTitles`. */
  const PageTitles: map<string, string> := map[
    "/" := "Dashboard",
    "/designs" := "Designs",
    "/designs/new" := "Add New Design",
    "/categories" := "Categories",
    "/analytics" := "Analytics",
    "/settings" := "Settings"
  ]

  /**
   * `getPageTitle`. Every title in the table is non-empty, so
   * `pageTitles[path] || 'Dashboard'` falls back only for a path the table lacks.
   */
  function PageTitle(path: string): (r: string)
    ensures r == EditDesign <==> StartsWith(path, DesignsPrefix) && path != NewDesignPath
    ensures !(StartsWith(path, DesignsPrefix) && path != NewDesignPath) ==>
      r == if path in PageTitles then PageTitles[path] else DashboardTitle
    ensures r != ""
  {
    if StartsWith(path, DesignsPrefix) && path != NewDesignPath then EditDesign
    else if path in PageTitles && PageTitles[path] != "" then PageTitles[path]
    else DashboardTitle
  }

  lemma DesignsPrefixOf(rest: string)
    ensures StartsWith(DesignsPrefix + rest, DesignsPrefix)
  {
    assert (DesignsPrefix + rest)[..|DesignsPrefix|] == DesignsPrefix;
  }

  /**
   * The new-design page has its own title, every other page under
   * `/designs/` is an edit page, the list itself is `Designs`, and a path
   * neither under `/designs/` nor in the table (such as `/blogs`) is titled
   * `Dashboard`.
   */
  lemma PageTitleCases(rest: string, path: string)
    ensures PageTitle(NewDesignPath) == "Add New Design"
    ensures rest != "new" ==> PageTitle(DesignsPrefix + rest) == EditDesign
    ensures PageTitle("/designs") == "Designs"
    ensures path !in PageTitles && !StartsWith(path, DesignsPrefix) ==> PageTitle(path) == DashboardTitle
  {
    DesignsPrefixOf(rest);
    if rest != "new" {
      assert (DesignsPrefix + rest)[|DesignsPrefix|..] == rest;
    }
    assert !StartsWith("/designs", DesignsPrefix);
  }
}
