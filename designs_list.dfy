/**
 * `DesignsList`: the filter state read from and written back to the URL, the
 * query sent to the designs service, the five-page pagination window, and
 * the selection and delete-confirmation state of the page.
 *
 * The debounced search text is a parameter: what `useDebounce` last settled on.
 */
module DesignsList {
  import opened Wrappers
  import opened Strings
  import Selection

  datatype Filters = Filters(search: string, category: string, sortBy: string, page: int)

  /** The keys `handleFilterChange` is called with. */
  datatype FilterKey = Search | Category | SortBy

  const DefaultSort: string := "newest"
  const PageSize: nat := 12
  const WindowSize: nat := 5

  /** `searchParams.get(key) || fallback`: an absent or empty parameter gives the fallback. */
  function ParamOr(params: map<string, string>, key: string, fallback: string): (v: string)
    ensures key in params && params[key] != "" ==> v == params[key]
    ensures key !in params || params[key] == "" ==> v == fallback
    ensures fallback != "" ==> v != ""
  {
    if key in params && params[key] != "" then params[key] else fallback
  }

  /** A non-empty value written under a key reads back; a removed key reads as the fallback. */
  lemma ParamOrReadsBack(params: map<string, string>, key: string, v: string, fallback: string)
    requires v != ""
    ensures ParamOr(params[key := v], key, fallback) == v
    ensures ParamOr(params - {key}, key, fallback) == fallback
  {
  }

  /** `parseInt(searchParams.get('page')) || 1`: no number, or 0, gives the first page. */
  function PageParam(params: map<string, string>): (p: int)
    ensures p >= 1
  {
    if "page" !in params then 1
    else
      match ParseIntPrefix(params["page"])
      case None => 1
      case Some(n) => if n == 0 then 1 else n
  }

  /** The initial `filters`, read from the URL. */
  function InitialFilters(params: map<string, string>): Filters {
    Filters(ParamOr(params, "q", ""), ParamOr(params, "category", ""), ParamOr(params, "sortBy", DefaultSort), PageParam(params))
  }

  /** The parameters handed to `fetchDesigns`. */
  datatype Query = Query(page: int, limit: nat, sortBy: string, q: Option<string>, category: Option<string>)

  /** The fetch parameters: page, 12 per page and the sort, plus the search text and the category when they filter anything. */
  function FetchQuery(f: Filters, debouncedSearch: string): Query {
    Query(f.page, PageSize, f.sortBy,
          if debouncedSearch != "" then Some(debouncedSearch) else None,
          if f.category != "" && f.category != "all" then Some(f.category) else None)
  }

  /** The search text is sent only when not empty; the category only when chosen and not `all`. */
  lemma FetchQueryFilters(f: Filters, debouncedSearch: string)
    ensures var q := FetchQuery(f, debouncedSearch);
      q.page == f.page && q.limit == 12 && q.sortBy == f.sortBy
      && (q.q.Some? <==> debouncedSearch != "") && (q.q.Some? ==> q.q.value == debouncedSearch)
      && (q.category.Some? <==> f.category != "" && f.category != "all")
      && (q.category.Some? ==> q.category.value == f.category)
  {
  }

  /** The URL parameters written back, set one after the other; a parameter at its default is left out. */
  function UrlParams(f: Filters, debouncedSearch: string): map<string, string> {
    var withQ: map<string, string> := if debouncedSearch != "" then map["q" := debouncedSearch] else map[];
    var withCategory := if f.category != "" then withQ["category" := f.category] else withQ;
    var withSort := if f.sortBy != DefaultSort then withCategory["sortBy" := f.sortBy] else withCategory;
    if f.page > 1 then withSort["page" := NatToString(f.page as nat)] else withSort
  }

  /** The URL carries the search text, the category, a sort other than `newest` and a page after the first, and nothing else. */
  lemma UrlParamsOmitDefaults(f: Filters, debouncedSearch: string)
    ensures var m := UrlParams(f, debouncedSearch);
      m.Keys <= {"q", "category", "sortBy", "page"}
      && ("q" in m <==> debouncedSearch != "") && ("q" in m ==> m["q"] == debouncedSearch)
      && ("category" in m <==> f.category != "") && ("category" in m ==> m["category"] == f.category)
      && ("sortBy" in m <==> f.sortBy != DefaultSort) && ("sortBy" in m ==> m["sortBy"] == f.sortBy)
      && ("page" in m <==> f.page > 1)
  {
  }

  /**
   * Reloading the page restores the filters: once the search has settled,
   * the URL written for some filters reads back as the same filters (a sort
   * left empty would come back as `newest`). Unlike the blogs page, these
   * filters include a category, written only when one is chosen.
   */
  lemma ReloadRestoresFilters(f: Filters)
    requires f.page >= 1 && f.sortBy != ""
    ensures InitialFilters(UrlParams(f, f.search)) == f
  {
    var m := UrlParams(f, f.search);
    UrlParamsOmitDefaults(f, f.search);
    if f.page > 1 {
      assert m["page"] == NatToString(f.page as nat);
      ParseNatToString(f.page as nat);
    }
  }

  // ---------------------------------------------------------------- the pagination window

  /** How many page buttons there are: `Math.min(5, totalPages)`, none for no pages. */
  function WindowLength(totalPages: int): nat {
    if totalPages <= 0 then 0 else if totalPages < WindowSize then totalPages else WindowSize
  }

  /** The page on the `i`-th button: the first five, the last five, or two either side of the current page. */
  function PageNumber(i: int, page: int, totalPages: int): int {
    if totalPages <= 5 then i + 1
    else if page <= 3 then i + 1
    else if page >= totalPages - 2 then totalPages - 4 + i
    else page - 2 + i
  }

  function PageWindow(page: int, totalPages: int): seq<int> {
    seq(WindowLength(totalPages), i requires 0 <= i < WindowLength(totalPages) => PageNumber(i, page, totalPages))
  }

  /**
   * The window holds `min(5, totalPages)` consecutive pages, all of them
   * existing pages, whatever the current page; when the current page exists
   * it is one of them.
   */
  lemma PageWindowShape(page: int, totalPages: int)
    ensures var w := PageWindow(page, totalPages);
      (totalPages >= 0 ==> |w| == if totalPages < 5 then totalPages else 5)
      && (forall i :: 0 <= i < |w| ==> 1 <= w[i] <= totalPages)
      && (forall i :: 0 < i < |w| ==> w[i] == w[i - 1] + 1)
      && (1 <= page <= totalPages ==> page in w)
  {
    var w := PageWindow(page, totalPages);
    if 1 <= page <= totalPages {
      var k := page - PageNumber(0, page, totalPages);
      assert 0 <= k < |w| && w[k] == page;
    }
  }

  // ---------------------------------------------------------------- the page state

  class DesignsListPage {
    var filters: Filters
    var selectedIds: seq<string>
    /** The design awaiting confirmation of its deletion (`deleteConfirm.id`); None when the dialog is closed. */
    var deleteConfirm: Option<string>
    var bulkDeleteConfirm: bool

    constructor (params: map<string, string>)
      ensures filters == InitialFilters(params) && filters.page >= 1
      ensures selectedIds == [] && deleteConfirm == None && !bulkDeleteConfirm
    {
      filters := InitialFilters(params);
      selectedIds := [];
      deleteConfirm := None;
      bulkDeleteConfirm := false;
    }

    /** `handleFilterChange`: sets the one filter, goes back to the first page and drops the selection. */
    method HandleFilterChange(key: FilterKey, value: string)
      modifies this`filters, this`selectedIds
      ensures filters.page == 1 && selectedIds == []
      ensures key == Search ==> filters == old(filters).(search := value, page := 1)
      ensures key == Category ==> filters == old(filters).(category := value, page := 1)
      ensures key == SortBy ==> filters == old(filters).(sortBy := value, page := 1)
    {
      match key {
        case Search => filters := filters.(search := value, page := 1);
        case Category => filters := filters.(category := value, page := 1);
        case SortBy => filters := filters.(sortBy := value, page := 1);
      }
      selectedIds := [];
    }

    /** A page button, Previous or Next: only the page changes; the selection is kept. */
    method SetPage(p: int)
      modifies this`filters
      ensures filters == old(filters).(page := p)
    {
      filters := filters.(page := p);
    }

    /** `handleSelect`. */
    method HandleSelect(id: string)
      modifies this`selectedIds
      ensures selectedIds == Selection.Toggle(old(selectedIds), id)
      ensures forall x :: x in selectedIds <==> (if x == id then id !in old(selectedIds) else x in old(selectedIds))
    {
      forall x {
        Selection.ToggleMembers(selectedIds, id, x);
      }
      selectedIds := Selection.Toggle(selectedIds, id);
    }

    /** `handleSelectAll`, given the ids of the designs on screen. */
    method HandleSelectAll(rowIds: seq<string>)
      modifies this`selectedIds
      ensures selectedIds == Selection.SelectAll(old(selectedIds), rowIds)
    {
      selectedIds := Selection.SelectAll(selectedIds, rowIds);
    }

    /** A card's delete button opens the dialog for that design. */
    method RequestDelete(id: string)
      modifies this`deleteConfirm
      ensures deleteConfirm == Some(id)
    {
      deleteConfirm := Some(id);
    }

    /**
     * `handleDelete`, given whether the hook's `deleteDesign` succeeded.
     * Without an id nothing happens. Otherwise a deleted design leaves the
     * selection, and the dialog closes whatever the outcome.
     */
    method HandleDelete(deleted: bool)
      modifies this`selectedIds, this`deleteConfirm
      ensures old(deleteConfirm).None? || old(deleteConfirm).value == "" ==> unchanged(this)
      ensures old(deleteConfirm).Some? && old(deleteConfirm).value != "" ==>
        deleteConfirm == None
        && selectedIds == (if deleted then Selection.Without(old(selectedIds), old(deleteConfirm).value) else old(selectedIds))
    {
      if deleteConfirm.None? || deleteConfirm.value == "" {
        return;
      }
      if deleted {
        selectedIds := Selection.Without(selectedIds, deleteConfirm.value);
      }
      deleteConfirm := None;
    }

    /** The delete dialog's cancel: closes it; the selection is kept. */
    method CancelDelete()
      modifies this`deleteConfirm
      ensures deleteConfirm == None
    {
      deleteConfirm := None;
    }

    /** The bulk bar's delete button opens the bulk dialog. */
    method RequestBulkDelete()
      modifies this`bulkDeleteConfirm
      ensures bulkDeleteConfirm
    {
      bulkDeleteConfirm := true;
    }

    /** The bulk dialog's cancel: closes it; the selection is kept. */
    method CancelBulkDelete()
      modifies this`bulkDeleteConfirm
      ensures !bulkDeleteConfirm
    {
      bulkDeleteConfirm := false;
    }

    /** `handleBulkDelete`, given whether the hook's `bulkDelete` succeeded: success empties the selection; the dialog closes either way. */
    method HandleBulkDelete(deleted: bool)
      modifies this`selectedIds, this`bulkDeleteConfirm
      ensures !bulkDeleteConfirm
      ensures selectedIds == (if deleted then [] else old(selectedIds))
    {
      if deleted {
        selectedIds := [];
      }
      bulkDeleteConfirm := false;
    }
  }
}
