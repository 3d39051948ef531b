/**
 * `BlogsList`: the filter state read from and written back to the URL, the
 * query sent to the blogs service, the page buttons with their ellipses, and
 * the selection and delete-confirmation state of the page. The URL helpers
 * are those of the designs list.
 */
module BlogsList {
  import opened Wrappers
  import opened Strings
  import Selection
  import DesignsList

  datatype Filters = Filters(search: string, sortBy: string, page: int)

  /** The keys `handleFilterChange` is called with. */
  datatype FilterKey = Search | SortBy

  /** The initial `filters`, read from the URL. */
  function InitialFilters(params: map<string, string>): Filters {
    Filters(DesignsList.ParamOr(params, "q", ""), DesignsList.ParamOr(params, "sortBy", DesignsList.DefaultSort),
            DesignsList.PageParam(params))
  }

  /** The parameters handed to `fetchBlogs`; the search text travels under `search`. */
  datatype Query = Query(page: int, limit: nat, sortBy: string, search: Option<string>)

  function FetchQuery(f: Filters, debouncedSearch: string): Query {
    Query(f.page, DesignsList.PageSize, f.sortBy, if debouncedSearch != "" then Some(debouncedSearch) else None)
  }

  /** Page, 12 per page and the sort, plus the search text (as `search`) only when not empty. */
  lemma FetchQueryFilters(f: Filters, debouncedSearch: string)
    ensures var q := FetchQuery(f, debouncedSearch);
      q.page == f.page && q.limit == 12 && q.sortBy == f.sortBy
      && (q.search.Some? <==> debouncedSearch != "") && (q.search.Some? ==> q.search.value == debouncedSearch)
  {
  }

  /** The URL parameters written back, set one after the other; a parameter at its default is left out. */
  function UrlParams(f: Filters, debouncedSearch: string): map<string, string> {
    var withQ: map<string, string> := if debouncedSearch != "" then map["q" := debouncedSearch] else map[];
    var withSort := if f.sortBy != DesignsList.DefaultSort then withQ["sortBy" := f.sortBy] else withQ;
    if f.page > 1 then withSort["page" := NatToString(f.page as nat)] else withSort
  }

  /** The URL carries the search text (as `q`), a sort other than `newest` and a page after the first, and nothing else. */
  lemma UrlParamsOmitDefaults(f: Filters, debouncedSearch: string)
    ensures var m := UrlParams(f, debouncedSearch);
      m.Keys <= {"q", "sortBy", "page"}
      && ("q" in m <==> debouncedSearch != "") && ("q" in m ==> m["q"] == debouncedSearch)
      && ("sortBy" in m <==> f.sortBy != DesignsList.DefaultSort) && ("sortBy" in m ==> m["sortBy"] == f.sortBy)
      && ("page" in m <==> f.page > 1)
  {
  }

  /**
   * Once the search has settled, the URL written for some filters reads back
   * as the same filters. Unlike the designs page, the blogs page keeps no
   * category in its filters, only the search, the sort and the page.
   */
  lemma ReloadRestoresFilters(f: Filters)
    requires f.page >= 1 && f.sortBy != ""
    ensures InitialFilters(UrlParams(f, f.search)) == f
  {
    var m := UrlParams(f, f.search);
    UrlParamsOmitDefaults(f, f.search);
    if f.page > 1 {
      assert m["page"] == NatToString(f.page as nat);
      ParseNatToString(f.page as nat);
    }
  }

  // ---------------------------------------------------------------- the page buttons

  function Abs(x: int): nat {
    if x < 0 then -x else x
  }

  /** A page gets a button when it is the first, the last, or next to the current page. */
  predicate Shown(p: int, current: int, totalPages: int) {
    p == 1 || p == totalPages || Abs(p - current) <= 1
  }

  /** The pages from `lo` to `totalPages` that get a button, in order. */
  function PagesFrom(lo: int, current: int, totalPages: int): seq<int>
    decreases totalPages - lo + 1
  {
    if lo > totalPages then []
    else (if Shown(lo, current, totalPages) then [lo] else []) + PagesFrom(lo + 1, current, totalPages)
  }

  /** `Array.from({ length: totalPages }, (_, i) => i + 1).filter(...)`. */
  function ShownPages(current: int, totalPages: int): seq<int> {
    PagesFrom(1, current, totalPages)
  }

  lemma {:induction false} PagesFromMembers(lo: int, current: int, totalPages: int, p: int)
    ensures p in PagesFrom(lo, current, totalPages) <==> lo <= p <= totalPages && Shown(p, current, totalPages)
    decreases totalPages - lo + 1
  {
    if lo <= totalPages {
      var head := if Shown(lo, current, totalPages) then [lo] else [];
      assert PagesFrom(lo, current, totalPages) == head + PagesFrom(lo + 1, current, totalPages);
      PagesFromMembers(lo + 1, current, totalPages, p);
    }
  }

  predicate Increasing(r: seq<int>) {
    forall i, j :: 0 <= i < j < |r| ==> r[i] < r[j]
  }

  predicate AllFrom(r: seq<int>, lo: int) {
    forall i :: 0 <= i < |r| ==> lo <= r[i]
  }

  lemma {:induction false} PagesFromAbove(lo: int, current: int, totalPages: int)
    ensures AllFrom(PagesFrom(lo, current, totalPages), lo)
    decreases totalPages - lo + 1
  {
    if lo <= totalPages {
      var head := if Shown(lo, current, totalPages) then [lo] else [];
      var rest := PagesFrom(lo + 1, current, totalPages);
      assert PagesFrom(lo, current, totalPages) == head + rest;
      PagesFromAbove(lo + 1, current, totalPages);
      forall i | 0 <= i < |head + rest|
        ensures lo <= (head + rest)[i]
      {
        if i >= |head| {
          assert (head + rest)[i] == rest[i - |head|];
        }
      }
    }
  }

  lemma {:induction false} PagesFromIncreasing(lo: int, current: int, totalPages: int)
    ensures Increasing(PagesFrom(lo, current, totalPages))
    decreases totalPages - lo + 1
  {
    if lo <= totalPages {
      var rest := PagesFrom(lo + 1, current, totalPages);
      PagesFromIncreasing(lo + 1, current, totalPages);
      if Shown(lo, current, totalPages) {
        var r := [lo] + rest;
        assert PagesFrom(lo, current, totalPages) == r;
        PagesFromAbove(lo + 1, current, totalPages);
        forall i, j | 0 <= i < j < |r|
          ensures r[i] < r[j]
        {
          if i == 0 {
            assert r[j] == rest[j - 1];
          } else {
            assert r[i] == rest[i - 1] && r[j] == rest[j - 1];
          }
        }
      } else {
        assert PagesFrom(lo, current, totalPages) == rest;
      }
    }
  }

  /** A page is shown exactly when it exists and is the first, the last or next to the current one; the pages come in increasing order. */
  lemma ShownPagesMembers(current: int, totalPages: int)
    ensures var r := ShownPages(current, totalPages);
      (forall p :: p in r <==> 1 <= p <= totalPages && (p == 1 || p == totalPages || Abs(p - current) <= 1))
      && (forall i, j :: 0 <= i < j < |r| ==> r[i] < r[j])
  {
    assert ShownPages(current, totalPages) == PagesFrom(1, current, totalPages);
    forall p {
      PagesFromMembers(1, current, totalPages, p);
    }
    PagesFromIncreasing(1, current, totalPages);
  }

  /** How many pages from `lo` on can still be shown: the first, the last, and those next to the current page. */
  function Room(lo: int, current: int, totalPages: int): int {
    var from := if lo < current - 1 then current - 1 else lo;
    (if lo <= 1 then 1 else 0) + (if lo <= totalPages then 1 else 0) + (if current + 1 < from then 0 else current + 2 - from)
  }

  lemma {:induction false} PagesFromCount(lo: int, current: int, totalPages: int)
    ensures |PagesFrom(lo, current, totalPages)| <= Room(lo, current, totalPages)
    decreases totalPages - lo + 1
  {
    if lo <= totalPages {
      var head := if Shown(lo, current, totalPages) then [lo] else [];
      assert PagesFrom(lo, current, totalPages) == head + PagesFrom(lo + 1, current, totalPages);
      PagesFromCount(lo + 1, current, totalPages);
      assert |head| + Room(lo + 1, current, totalPages) <= Room(lo, current, totalPages);
    }
  }

  /** There are never more than five page buttons. */
  lemma ShownPagesAtMostFive(current: int, totalPages: int)
    ensures |ShownPages(current, totalPages)| <= 5
  {
    PagesFromCount(1, current, totalPages);
  }

  /** `idx > 0 && arr[idx - 1] !== page - 1`: a `...` goes before the button. */
  predicate Ellipsis(r: seq<int>, idx: int)
    requires 0 <= idx < |r|
  {
    idx > 0 && r[idx - 1] != r[idx] - 1
  }

  /** An ellipsis stands before a button exactly when the page just before it has no button. */
  lemma EllipsisMarksGap(current: int, totalPages: int, idx: int)
    requires 0 < idx < |ShownPages(current, totalPages)|
    ensures var r := ShownPages(current, totalPages);
      Ellipsis(r, idx) <==> !Shown(r[idx] - 1, current, totalPages)
  {
    var r := ShownPages(current, totalPages);
    ShownPagesMembers(current, totalPages);
    assert r[idx - 1] in r && r[idx] in r;
    var p := r[idx] - 1;
    if Ellipsis(r, idx) {
      assert r[idx - 1] < p;
      forall k | 0 <= k < |r| ensures r[k] != p {
        if k < idx - 1 {
          assert r[k] < r[idx - 1];
        } else if k > idx {
          assert r[idx] < r[k];
        }
      }
      assert p !in r;
    } else {
      assert r[idx - 1] == p && p in r;
    }
  }

  // ---------------------------------------------------------------- the page state

  class BlogsListPage {
    var filters: Filters
    var selectedIds: seq<string>
    /** The blog awaiting confirmation of its deletion; None when the dialog is closed. */
    var deleteConfirm: Option<string>
    var bulkDeleteConfirm: bool

    constructor (params: map<string, string>)
      ensures filters == InitialFilters(params) && filters.page >= 1
      ensures selectedIds == [] && deleteConfirm == None && !bulkDeleteConfirm
    {
      filters := InitialFilters(params);
      selectedIds := [];
      deleteConfirm := None;
      bulkDeleteConfirm := false;
    }

    /** `handleFilterChange`: sets the one filter, goes back to the first page and drops the selection. */
    method HandleFilterChange(key: FilterKey, value: string)
      modifies this`filters, this`selectedIds
      ensures filters.page == 1 && selectedIds == []
      ensures key == Search ==> filters == old(filters).(search := value, page := 1)
      ensures key == SortBy ==> filters == old(filters).(sortBy := value, page := 1)
    {
      match key {
        case Search => filters := filters.(search := value, page := 1);
        case SortBy => filters := filters.(sortBy := value, page := 1);
      }
      selectedIds := [];
    }

    /** A page button, Previous or Next: only the page changes; the selection is kept. */
    method SetPage(p: int)
      modifies this`filters
      ensures filters == old(filters).(page := p)
    {
      filters := filters.(page := p);
    }

    /** `handleSelect`. */
    method HandleSelect(id: string)
      modifies this`selectedIds
      ensures selectedIds == Selection.Toggle(old(selectedIds), id)
      ensures forall x :: x in selectedIds <==> (if x == id then id !in old(selectedIds) else x in old(selectedIds))
    {
      forall x {
        Selection.ToggleMembers(selectedIds, id, x);
      }
      selectedIds := Selection.Toggle(selectedIds, id);
    }

    /** `handleSelectAll`, given the ids of the blogs on screen. */
    method HandleSelectAll(rowIds: seq<string>)
      modifies this`selectedIds
      ensures selectedIds == Selection.SelectAll(old(selectedIds), rowIds)
    {
      selectedIds := Selection.SelectAll(selectedIds, rowIds);
    }

    /** A card's delete button opens the dialog for that blog. */
    method RequestDelete(id: string)
      modifies this`deleteConfirm
      ensures deleteConfirm == Some(id)
    {
      deleteConfirm := Some(id);
    }

    /** `handleDelete`, given whether the hook's `deleteBlog` succeeded. */
    method HandleDelete(deleted: bool)
      modifies this`selectedIds, this`deleteConfirm
      ensures old(deleteConfirm).None? || old(deleteConfirm).value == "" ==> unchanged(this)
      ensures old(deleteConfirm).Some? && old(deleteConfirm).value != "" ==>
        deleteConfirm == None
        && selectedIds == (if deleted then Selection.Without(old(selectedIds), old(deleteConfirm).value) else old(selectedIds))
    {
      if deleteConfirm.None? || deleteConfirm.value == "" {
        return;
      }
      if deleted {
        selectedIds := Selection.Without(selectedIds, deleteConfirm.value);
      }
      deleteConfirm := None;
    }

    /** The delete dialog's cancel: closes it; the selection is kept. */
    method CancelDelete()
      modifies this`deleteConfirm
      ensures deleteConfirm == None
    {
      deleteConfirm := None;
    }

    method RequestBulkDelete()
      modifies this`bulkDeleteConfirm
      ensures bulkDeleteConfirm
    {
      bulkDeleteConfirm := true;
    }

    /** The bulk dialog's cancel: closes it; the selection is kept. */
    method CancelBulkDelete()
      modifies this`bulkDeleteConfirm
      ensures !bulkDeleteConfirm
    {
      bulkDeleteConfirm := false;
    }

    /** `handleBulkDelete`, given whether the hook's `bulkDelete` succeeded. */
    method HandleBulkDelete(deleted: bool)
      modifies this`selectedIds, this`bulkDeleteConfirm
      ensures !bulkDeleteConfirm
      ensures selectedIds == (if deleted then [] else old(selectedIds))
    {
      if deleted {
        selectedIds := [];
      }
      bulkDeleteConfirm := false;
    }
  }
}
