/**
 * The row selection of the designs and blogs lists: `handleSelect`,
 * `handleSelectAll` and the bulk checkbox. Both pages carry the same code,
 * over `selectedIds` (a list of ids) and the ids of the rows on screen.
 */
module Selection {
  import Collections

  /** An id read as its own key, so that `prev.filter(i => i !== id)` is an id removal. */
  function Self(id: string): string {
    id
  }

  /** `prev.filter(i => i !== id)`. */
  function Without(selected: seq<string>, id: string): seq<string> {
    Collections.RemoveById(selected, Self, id)
  }

  /** `prev.includes(id) ? prev.filter(i => i !== id) : [...prev, id]`. */
  function Toggle(selected: seq<string>, id: string): seq<string> {
    if id in selected then Without(selected, id) else selected + [id]
  }

  /** No id is listed twice. */
  predicate Distinct(s: seq<string>) {
    forall i, j :: 0 <= i < j < |s| ==> s[i] != s[j]
  }

  lemma WithoutMembers(selected: seq<string>, id: string, x: string)
    ensures x in Without(selected, id) <==> x in selected && x != id
  {
    Collections.RemoveByIdMembers(selected, Self, id, x);
  }

  /** Toggling flips the membership of that id and of no other. */
  lemma ToggleMembers(selected: seq<string>, id: string, x: string)
    ensures x in Toggle(selected, id) <==> (if x == id then id !in selected else x in selected)
  {
    if id in selected {
      WithoutMembers(selected, id, x);
    }
  }

  /** Toggling the same id twice selects the same ids as before. */
  lemma ToggleTwice(selected: seq<string>, id: string, x: string)
    ensures x in Toggle(Toggle(selected, id), id) <==> x in selected
  {
    ToggleMembers(selected, id, x);
    ToggleMembers(Toggle(selected, id), id, x);
    ToggleMembers(selected, id, id);
  }

  lemma DistinctCons(x: string, rest: seq<string>)
    requires x !in rest && Distinct(rest)
    ensures Distinct([x] + rest)
  {
    var s := [x] + rest;
    forall i, j | 0 <= i < j < |s|
      ensures s[i] != s[j]
    {
      assert s[j] == rest[j - 1];
      if i > 0 {
        assert s[i] == rest[i - 1];
      }
    }
  }

  /** Removing an id keeps the others listed once each. */
  lemma {:induction false} WithoutKeepsDistinct(selected: seq<string>, id: string)
    requires Distinct(selected)
    ensures Distinct(Without(selected, id))
  {
    if selected != [] {
      var rest := Without(selected[1..], id);
      assert Distinct(selected[1..]) by {
        forall i, j | 0 <= i < j < |selected[1..]|
          ensures selected[1..][i] != selected[1..][j]
        {
          assert selected[1..][i] == selected[i + 1] && selected[1..][j] == selected[j + 1];
        }
      }
      WithoutKeepsDistinct(selected[1..], id);
      if selected[0] != id {
        assert Without(selected, id) == [selected[0]] + rest;
        WithoutMembers(selected[1..], id, selected[0]);
        assert forall k :: 0 <= k < |selected[1..]| ==> selected[1..][k] == selected[k + 1];
        DistinctCons(selected[0], rest);
      } else {
        assert Without(selected, id) == rest;
      }
    }
  }

  /** A selection built only by toggling never lists an id twice. */
  lemma ToggleKeepsDistinct(selected: seq<string>, id: string)
    requires Distinct(selected)
    ensures Distinct(Toggle(selected, id))
  {
    if id in selected {
      WithoutKeepsDistinct(selected, id);
    } else {
      var r := selected + [id];
      forall i, j | 0 <= i < j < |r|
        ensures r[i] != r[j]
      {
        if j == |selected| {
          assert r[i] == selected[i];
        }
      }
    }
  }

  /**
   * `handleSelectAll`: clears the selection when it counts as many ids as
   * there are rows, otherwise selects every row, in list order. Only the
   * counts are compared, not the ids.
   */
  function SelectAll(selected: seq<string>, rowIds: seq<string>): seq<string> {
    if |selected| == |rowIds| then [] else rowIds
  }

  /** With rows on screen, the header checkbox alternates between all and none. */
  lemma SelectAllAlternates(selected: seq<string>, rowIds: seq<string>)
    requires rowIds != []
    ensures |SelectAll(selected, rowIds)| == |rowIds| <==> |selected| != |rowIds|
    ensures SelectAll(SelectAll(selected, rowIds), rowIds) == (if |selected| == |rowIds| then rowIds else [])
  {
  }

  /** The bulk checkbox is checked when the selection counts as many ids as there are rows. */
  function BulkChecked(count: nat, rows: nat): bool {
    count == rows
  }

  /** ... and indeterminate when some but fewer are selected. */
  function BulkIndeterminate(count: nat, rows: nat): bool {
    count > 0 && count < rows
  }

  /** While the bulk bar is shown (some id selected), the checkbox is never both; when the selection is within the rows, it is exactly one. */
  lemma BulkCheckboxState(count: nat, rows: nat)
    requires count > 0
    ensures !(BulkChecked(count, rows) && BulkIndeterminate(count, rows))
    ensures count <= rows ==> BulkChecked(count, rows) != BulkIndeterminate(count, rows)
  {
  }
}
