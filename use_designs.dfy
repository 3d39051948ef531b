/**
 * `useDesigns`: the designs on screen, the loading flag, the error text and
 * the pagination, and the operations that call the design service and
 * update them. Each operation clears the error, awaits the service (an
 * outcome supplied by the caller), updates the list on success or records
 * `getErrorMessage(err)` and rethrows on failure, and always ends with
 * `loading` false. A result of None stands for the rethrown error.
 */
module DesignsHook {
  import opened Wrappers
  import opened Helpers
  import Collections
  import opened Services

  /** A design as the server sends it: its `_id`, the rest opaque. */
  datatype Record = Record(id: string, fields: map<string, string>)

  function RecordId(r: Record): string {
    r.id
  }

  datatype Pagination = Pagination(page: int, limit: int, totalCount: int, totalPages: int)

  const InitialPagination: Pagination := Pagination(1, 20, 0, 0)

  /** The body of a list response; either part may be missing. */
  datatype Listing = Listing(designs: Option<seq<Record>>, pagination: Option<Pagination>)

  /** The body of an update response: `{ design }`. */
  datatype Updated = Updated(design: Record)

  class DesignsStore {
    var designs: seq<Record>
    var loading: bool
    var error: Option<string>
    var pagination: Pagination

    constructor ()
      ensures designs == [] && !loading && error == None && pagination == InitialPagination
    {
      designs := [];
      loading := false;
      error := None;
      pagination := InitialPagination;
    }

    /** The `catch` of every operation: the error text is `getErrorMessage(err)`. */
    method Fail(err: ErrorValue)
      modifies this`error
      ensures error == Some(GetErrorMessage(err))
    {
      error := Some(GetErrorMessage(err));
    }

    /**
     * `fetchDesigns`: the list becomes the response's designs (or none), and
     * the pagination is replaced only when the response carries one.
     */
    method FetchDesigns(outcome: Outcome<Listing>) returns (returned: Option<Listing>)
      modifies this
      ensures !loading
      ensures outcome.Returned? ==>
        returned == Some(outcome.value) && error == None
        && designs == outcome.value.designs.GetOr([])
        && pagination == outcome.value.pagination.GetOr(old(pagination))
      ensures outcome.Threw? ==>
        returned == None && error == Some(GetErrorMessage(outcome.error))
        && designs == old(designs) && pagination == old(pagination)
    {
      loading := true;
      error := None;
      match outcome {
        case Returned(result) =>
          designs := result.designs.GetOr([]);
          if result.pagination.Some? {
            pagination := result.pagination.value;
          }
          returned := Some(result);
        case Threw(err) =>
          Fail(err);
          returned := None;
      }
      loading := false;
    }

    /** `createDesign`: only the flags change; the new design is not added to the list. */
    method CreateDesign<T>(outcome: Outcome<T>) returns (returned: Option<T>)
      modifies this
      ensures !loading && designs == old(designs) && pagination == old(pagination)
      ensures outcome.Returned? ==> returned == Some(outcome.value) && error == None
      ensures outcome.Threw? ==> returned == None && error == Some(GetErrorMessage(outcome.error))
    {
      loading := true;
      error := None;
      match outcome {
        case Returned(result) =>
          returned := Some(result);
        case Threw(err) =>
          Fail(err);
          returned := None;
      }
      loading := false;
    }

    /**
     * `updateDesign`: every design with that id is replaced by the returned
     * one; the length and every other design stay as they were.
     */
    method UpdateDesign(id: string, outcome: Outcome<Updated>) returns (returned: Option<Updated>)
      modifies this
      ensures !loading && pagination == old(pagination)
      ensures outcome.Returned? ==>
        returned == Some(outcome.value) && error == None
        && designs == Collections.ReplaceById(old(designs), RecordId, id, outcome.value.design)
        && |designs| == |old(designs)|
        && (forall i :: 0 <= i < |designs| && old(designs)[i].id != id ==> designs[i] == old(designs)[i])
        && (forall i :: 0 <= i < |designs| && old(designs)[i].id == id ==> designs[i] == outcome.value.design)
      ensures outcome.Threw? ==>
        returned == None && error == Some(GetErrorMessage(outcome.error)) && designs == old(designs)
    {
      loading := true;
      error := None;
      match outcome {
        case Returned(result) =>
          designs := Collections.ReplaceById(designs, RecordId, id, result.design);
          returned := Some(result);
        case Threw(err) =>
          Fail(err);
          returned := None;
      }
      loading := false;
    }

    /** `deleteDesign`: every design with that id leaves the list; the others stay, in order. */
    method DeleteDesign(id: string, outcome: Outcome<()>) returns (returned: Option<bool>)
      modifies this
      ensures !loading && pagination == old(pagination)
      ensures outcome.Returned? ==>
        returned == Some(true) && error == None
        && designs == Collections.RemoveById(old(designs), RecordId, id)
        && (forall d :: d in designs <==> d in old(designs) && d.id != id)
      ensures outcome.Threw? ==>
        returned == None && error == Some(GetErrorMessage(outcome.error)) && designs == old(designs)
    {
      loading := true;
      error := None;
      match outcome {
        case Returned(_) =>
          forall d {
            Collections.RemoveByIdMembers(designs, RecordId, id, d);
          }
          designs := Collections.RemoveById(designs, RecordId, id);
          returned := Some(true);
        case Threw(err) =>
          Fail(err);
          returned := None;
      }
      loading := false;
    }

    /**
     * `bulkDelete`: every design whose id was asked for leaves the list,
     * whatever the counts say about requests that failed.
     */
    method BulkDelete(ids: seq<string>, outcome: Outcome<BulkResult>) returns (returned: Option<BulkResult>)
      modifies this
      ensures !loading && pagination == old(pagination)
      ensures outcome.Returned? ==>
        returned == Some(outcome.value) && error == None
        && designs == Collections.RemoveAllIds(old(designs), RecordId, ids)
        && (forall d :: d in designs <==> d in old(designs) && d.id !in ids)
      ensures outcome.Threw? ==>
        returned == None && error == Some(GetErrorMessage(outcome.error)) && designs == old(designs)
    {
      loading := true;
      error := None;
      match outcome {
        case Returned(result) =>
          forall d {
            Collections.RemoveAllIdsMembers(designs, RecordId, ids, d);
          }
          designs := Collections.RemoveAllIds(designs, RecordId, ids);
          returned := Some(result);
        case Threw(err) =>
          Fail(err);
          returned := None;
      }
      loading := false;
    }
  }
}
