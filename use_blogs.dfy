/**
 * `useBlogs`: the blogs on screen, the loading flag, the error text and the
 * pagination, and the operations that call the blog service. Unlike the
 * designs hook, the error text is the thrown value's own `message` (or a
 * fixed text per operation), and the list callback is created once, so a
 * response without pagination restores the initial pagination rather than
 * keeping the current one. A result of None stands for a rethrown error.
 */
module BlogsHook {
  import opened Wrappers
  import opened Helpers
  import Collections
  import opened Services

  /** A blog as the server sends it: its `_id`, the rest opaque. */
  datatype Record = Record(id: string, fields: map<string, string>)

  function RecordId(r: Record): string {
    r.id
  }

  datatype Pagination = Pagination(currentPage: int, totalPages: int, totalCount: int, limit: int,
                                   hasNextPage: bool, hasPrevPage: bool)

  const InitialPagination: Pagination := Pagination(1, 1, 0, 12, false, false)

  /** The body of a list response; either part may be missing. */
  datatype Listing = Listing(blogs: Option<seq<Record>>, pagination: Option<Pagination>)

  /** The body of an update response: `{ blog }`. */
  datatype Updated = Updated(blog: Record)

  /** `deleteBlog`'s result, `{ success: true }`. */
  datatype Deleted = Deleted(success: bool)

  const FetchFailed: string := "Failed to fetch blogs"
  const FetchOneFailed: string := "Failed to fetch blog"
  const CreateFailed: string := "Failed to create blog"
  const UpdateFailed: string := "Failed to update blog"
  const DeleteFailed: string := "Failed to delete blog"
  const BulkDeleteFailed: string := "Failed to delete blogs"

  /**
   * `err.message || fallback`. A thrown string has no `message`, so it gives
   * the fallback; a thrown `null` makes the read itself throw, and then no
   * error text is set at all (None).
   */
  function ErrorText(err: ErrorValue, fallback: string): (r: Option<string>)
    ensures err.NullError? <==> r.None?
    ensures err.ErrorObject? && Truthy(err.message) ==> r == err.message
    ensures err.TextError? || (err.ErrorObject? && !Truthy(err.message)) ==> r == Some(fallback)
    ensures fallback != "" && r.Some? ==> r.value != ""
  {
    match err
    case TextError(_) => Some(fallback)
    case ErrorObject(_, message) => if Truthy(message) then message else Some(fallback)
    case NullError => None
  }

  class BlogsStore {
    var blogs: seq<Record>
    var loading: bool
    var error: Option<string>
    var pagination: Pagination

    constructor ()
      ensures blogs == [] && !loading && error == None && pagination == InitialPagination
    {
      blogs := [];
      loading := false;
      error := None;
      pagination := InitialPagination;
    }

    /** The `catch` of every operation: the error text is `err.message || fallback`, if reading it does not throw. */
    method Fail(err: ErrorValue, fallback: string)
      modifies this`error
      ensures error == (if err.NullError? then old(error) else ErrorText(err, fallback))
    {
      if !err.NullError? {
        error := ErrorText(err, fallback);
      }
    }

    /**
     * `fetchBlogs`: the list becomes the response's blogs (or none); the
     * pagination becomes the response's, or the initial one when it has none.
     */
    method FetchBlogs(outcome: Outcome<Listing>) returns (returned: Option<Listing>)
      modifies this
      ensures !loading
      ensures outcome.Returned? ==>
        returned == Some(outcome.value) && error == None
        && blogs == outcome.value.blogs.GetOr([])
        && pagination == outcome.value.pagination.GetOr(InitialPagination)
      ensures outcome.Threw? ==>
        returned == None && error == ErrorText(outcome.error, FetchFailed)
        && blogs == old(blogs) && pagination == old(pagination)
    {
      loading := true;
      error := None;
      match outcome {
        case Returned(result) =>
          blogs := result.blogs.GetOr([]);
          pagination := result.pagination.GetOr(InitialPagination);
          returned := Some(result);
        case Threw(err) =>
          Fail(err, FetchFailed);
          returned := None;
      }
      loading := false;
    }

    /** `getBlogById` and `createBlog`: only the flags change; the list is left alone. */
    method Call<T>(outcome: Outcome<T>, fallback: string) returns (returned: Option<T>)
      modifies this
      ensures !loading && blogs == old(blogs) && pagination == old(pagination)
      ensures outcome.Returned? ==> returned == Some(outcome.value) && error == None
      ensures outcome.Threw? ==> returned == None && error == ErrorText(outcome.error, fallback)
    {
      loading := true;
      error := None;
      match outcome {
        case Returned(result) =>
          returned := Some(result);
        case Threw(err) =>
          Fail(err, fallback);
          returned := None;
      }
      loading := false;
    }

    method GetBlogById<T>(outcome: Outcome<T>) returns (returned: Option<T>)
      modifies this
      ensures !loading && blogs == old(blogs) && pagination == old(pagination)
      ensures outcome.Returned? ==> returned == Some(outcome.value) && error == None
      ensures outcome.Threw? ==> returned == None && error == ErrorText(outcome.error, FetchOneFailed)
    {
      returned := Call(outcome, FetchOneFailed);
    }

    method CreateBlog<T>(outcome: Outcome<T>) returns (returned: Option<T>)
      modifies this
      ensures !loading && blogs == old(blogs) && pagination == old(pagination)
      ensures outcome.Returned? ==> returned == Some(outcome.value) && error == None
      ensures outcome.Threw? ==> returned == None && error == ErrorText(outcome.error, CreateFailed)
    {
      returned := Call(outcome, CreateFailed);
    }

    /** `updateBlog`: every blog with that id is replaced by the returned one; the rest stay as they were. */
    method UpdateBlog(id: string, outcome: Outcome<Updated>) returns (returned: Option<Updated>)
      modifies this
      ensures !loading && pagination == old(pagination)
      ensures outcome.Returned? ==>
        returned == Some(outcome.value) && error == None
        && blogs == Collections.ReplaceById(old(blogs), RecordId, id, outcome.value.blog)
        && |blogs| == |old(blogs)|
        && (forall i :: 0 <= i < |blogs| && old(blogs)[i].id != id ==> blogs[i] == old(blogs)[i])
        && (forall i :: 0 <= i < |blogs| && old(blogs)[i].id == id ==> blogs[i] == outcome.value.blog)
      ensures outcome.Threw? ==>
        returned == None && error == ErrorText(outcome.error, UpdateFailed) && blogs == old(blogs)
    {
      loading := true;
      error := None;
      match outcome {
        case Returned(result) =>
          blogs := Collections.ReplaceById(blogs, RecordId, id, result.blog);
          returned := Some(result);
        case Threw(err) =>
          Fail(err, UpdateFailed);
          returned := None;
      }
      loading := false;
    }

    /** `deleteBlog`: every blog with that id leaves the list, and the result is `{ success: true }`. */
    method DeleteBlog(id: string, outcome: Outcome<()>) returns (returned: Option<Deleted>)
      modifies this
      ensures !loading && pagination == old(pagination)
      ensures outcome.Returned? ==>
        returned == Some(Deleted(true)) && error == None
        && blogs == Collections.RemoveById(old(blogs), RecordId, id)
        && (forall b :: b in blogs <==> b in old(blogs) && b.id != id)
      ensures outcome.Threw? ==>
        returned == None && error == ErrorText(outcome.error, DeleteFailed) && blogs == old(blogs)
    {
      loading := true;
      error := None;
      match outcome {
        case Returned(_) =>
          forall b {
            Collections.RemoveByIdMembers(blogs, RecordId, id, b);
          }
          blogs := Collections.RemoveById(blogs, RecordId, id);
          returned := Some(Deleted(true));
        case Threw(err) =>
          Fail(err, DeleteFailed);
          returned := None;
      }
      loading := false;
    }

    /** `bulkDelete`: every blog whose id was asked for leaves the list, whatever the counts say. */
    method BulkDelete(ids: seq<string>, outcome: Outcome<BulkResult>) returns (returned: Option<BulkResult>)
      modifies this
      ensures !loading && pagination == old(pagination)
      ensures outcome.Returned? ==>
        returned == Some(outcome.value) && error == None
        && blogs == Collections.RemoveAllIds(old(blogs), RecordId, ids)
        && (forall b :: b in blogs <==> b in old(blogs) && b.id !in ids)
      ensures outcome.Threw? ==>
        returned == None && error == ErrorText(outcome.error, BulkDeleteFailed) && blogs == old(blogs)
    {
      loading := true;
      error := None;
      match outcome {
        case Returned(result) =>
          forall b {
            Collections.RemoveAllIdsMembers(blogs, RecordId, ids, b);
          }
          blogs := Collections.RemoveAllIds(blogs, RecordId, ids);
          returned := Some(result);
        case Threw(err) =>
          Fail(err, BulkDeleteFailed);
          returned := None;
      }
      loading := false;
    }
  }
}
