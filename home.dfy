/**
  The state machine of the `Home` page component. The class fields are the
  component's `useState` variables and each method is one handler run to its
  end as a single step. Every backend answer the handler awaits is a parameter,
  and so is the browser's URL check.

  The fetch and the add are split into a Begin and a Finish phase, so that the
  in-flight flags (`dataLoading`, `actionLoading`) can be seen between the two.
  `FetchBookmarks` and `AddBookmark` run both phases in one step.
 */
module HomePage {
  import opened Records
  import opened Pagination
  import opened BookmarkList

  const InvalidUrlMessage: string := "Please enter a valid URL"
  const DeletedMessage: string := "Bookmark deleted successfully!"
  const CopiedMessage: string := "URL copied to clipboard"

  // What a completed fetch does to each field it touches, given the field's
  // value before. `FinishFetch` is specified by these four and every handler
  // that fetches is specified through it.

  /** The cached list after a fetch: replaced by the rows (`data ?? []`) on
      success, kept on error. */
  function ListAfterFetch(cached: seq<Bookmark>, result: QueryResult): (after: seq<Bookmark>)
    ensures result.QueryError? ==> after == cached
    ensures result.Rows? && result.data.Some? ==> after == result.data.value
    ensures result.Rows? && result.data.None? ==> after == []
  {
    match result
    case Rows(data, _) => data.GetOr([])
    case QueryError(_) => cached
  }

  /** The total after a fetch: replaced by the count (`count ?? 0`) on
      success, kept on error. */
  function CountAfterFetch(cached: int, result: QueryResult): (after: int)
    ensures result.QueryError? ==> after == cached
    ensures result.Rows? && result.count.Some? ==> after == result.count.value
    ensures result.Rows? && result.count.None? ==> after == 0
  {
    match result
    case Rows(_, count) => count.GetOr(0)
    case QueryError(_) => cached
  }

  /** The error slot after a fetch: `showError(error.message)` on error,
      untouched on success. */
  function ErrorAfterFetch(shown: string, result: QueryResult): (after: string)
    ensures result.QueryError? ==> after == result.message
    ensures result.Rows? ==> after == shown
  {
    match result
    case Rows(_, _) => shown
    case QueryError(message) => message
  }

  /** The success slot after a fetch: emptied by `showError` on error,
      untouched on success. */
  function SuccessAfterFetch(shown: string, result: QueryResult): (after: string)
    ensures result.QueryError? ==> after == ""
    ensures result.Rows? ==> after == shown
  {
    match result
    case Rows(_, _) => shown
    case QueryError(_) => ""
  }

  /** A successful fetch replaces the cache wholesale: what was cached before
      has no influence on the list or the total afterwards. */
  lemma FetchReplacesWholesale(list1: seq<Bookmark>, list2: seq<Bookmark>, count1: int, count2: int, result: QueryResult)
    requires result.Rows?
    ensures ListAfterFetch(list1, result) == ListAfterFetch(list2, result)
    ensures CountAfterFetch(count1, result) == CountAfterFetch(count2, result)
  {
  }

  /** A fetch leaves at most one notice slot filled if at most one was filled
      before, and a failed fetch leaves the cache exactly as it was. */
  lemma FetchKeepsNoticesExclusive(cached: seq<Bookmark>, count: int, error: string, success: string, result: QueryResult)
    requires error == "" || success == ""
    ensures ErrorAfterFetch(error, result) == "" || SuccessAfterFetch(success, result) == ""
    ensures result.QueryError? ==> ListAfterFetch(cached, result) == cached && CountAfterFetch(count, result) == count
  {
  }

  class Home {
    var bookmarks: seq<Bookmark>
    var totalCount: int
    var page: int
    var dataLoading: bool
    var actionLoading: bool
    var errorMessage: string
    var successMessage: string
    var title: string
    var url: string

    /** The page index never goes below 0, and at most one message slot is filled. */
    ghost predicate Valid()
      reads this
    {
      page >= 0 && (errorMessage == "" || successMessage == "")
    }

    /** The initial `useState` values. */
    constructor ()
      ensures Valid()
      ensures bookmarks == [] && totalCount == 0 && page == 0
      ensures !dataLoading && !actionLoading
      ensures errorMessage == "" && successMessage == "" && title == "" && url == ""
    {
      bookmarks, totalCount, page := [], 0, 0;
      dataLoading, actionLoading := false, false;
      errorMessage, successMessage := "", "";
      title, url := "", "";
    }

    /** `showError`: fills the error slot and empties the success slot. */
    method ShowError(message: string)
      requires Valid()
      modifies this`errorMessage, this`successMessage
      ensures Valid()
      ensures errorMessage == message && successMessage == ""
    {
      errorMessage := message;
      successMessage := "";
    }

    /** `showSuccess`: fills the success slot and empties the error slot. */
    method ShowSuccess(message: string)
      requires Valid()
      modifies this`errorMessage, this`successMessage
      ensures Valid()
      ensures successMessage == message && errorMessage == ""
    {
      successMessage := message;
      errorMessage := "";
    }

    /** The 3-second timer of `showError` firing: it empties the error slot
        whatever it holds by then. */
    method ExpireError()
      requires Valid()
      modifies this`errorMessage
      ensures Valid()
      ensures errorMessage == ""
    {
      errorMessage := "";
    }

    /** The 3-second timer of `showSuccess` firing. */
    method ExpireSuccess()
      requires Valid()
      modifies this`successMessage
      ensures Valid()
      ensures successMessage == ""
    {
      successMessage := "";
    }

    /** `handleCopy`: the clipboard write is left out; the notice is shown. */
    method HandleCopy()
      requires Valid()
      modifies this`errorMessage, this`successMessage
      ensures Valid()
      ensures successMessage == CopiedMessage && errorMessage == ""
    {
      ShowSuccess(CopiedMessage);
    }

    /** The title input's change handler. */
    method SetTitle(value: string)
      modifies this`title
      ensures title == value
    {
      title := value;
    }

    /** The URL input's change handler. */
    method SetUrl(value: string)
      modifies this`url
      ensures url == value
    {
      url := value;
    }

    /** First phase of `fetchBookmarks(pageToLoad)`: dropped when a fetch is
        already in flight; otherwise raises the flag and issues the query for
        the page's window. Either way a fetch is in flight afterwards. */
    method BeginFetch(pageToLoad: int) returns (request: Option<Window>)
      modifies this`dataLoading
      ensures dataLoading
      ensures old(dataLoading) <==> request.None?
      ensures request.Some? ==> request.value == FetchWindow(pageToLoad)
    {
      if dataLoading {
        return None;
      }
      dataLoading := true;
      request := Some(FetchWindow(pageToLoad));
    }

    /** Second phase of `fetchBookmarks`: a successful answer replaces the list
        and the count wholesale (a null list reads as empty, a null count as 0);
        an error leaves both alone and is shown. The flag is lowered. */
    method FinishFetch(result: QueryResult)
      requires Valid()
      modifies this`bookmarks, this`totalCount, this`dataLoading, this`errorMessage, this`successMessage
      ensures Valid()
      ensures !dataLoading
      ensures bookmarks == ListAfterFetch(old(bookmarks), result)
      ensures totalCount == CountAfterFetch(old(totalCount), result)
      ensures errorMessage == ErrorAfterFetch(old(errorMessage), result)
      ensures successMessage == SuccessAfterFetch(old(successMessage), result)
    {
      if result.QueryError? {
        ShowError(result.message);
      } else {
        bookmarks := result.data.GetOr([]);
        totalCount := result.count.GetOr(0);
      }
      dataLoading := false;
    }

    /** `fetchBookmarks(pageToLoad)` run to completion with the backend's answer
        `result`. Dropped entirely when a fetch is already in flight. */
    method FetchBookmarks(pageToLoad: int, result: QueryResult) returns (request: Option<Window>)
      requires Valid()
      modifies this`bookmarks, this`totalCount, this`dataLoading, this`errorMessage, this`successMessage
      ensures Valid()
      ensures dataLoading == old(dataLoading)
      ensures old(dataLoading) ==> request == None
      ensures old(dataLoading) ==> bookmarks == old(bookmarks) && totalCount == old(totalCount)
      ensures old(dataLoading) ==> errorMessage == old(errorMessage) && successMessage == old(successMessage)
      ensures !old(dataLoading) ==> request == Some(FetchWindow(pageToLoad))
      ensures !old(dataLoading) ==> bookmarks == ListAfterFetch(old(bookmarks), result)
      ensures !old(dataLoading) ==> totalCount == CountAfterFetch(old(totalCount), result)
      ensures !old(dataLoading) ==> errorMessage == ErrorAfterFetch(old(errorMessage), result)
      ensures !old(dataLoading) ==> successMessage == SuccessAfterFetch(old(successMessage), result)
    {
      request := BeginFetch(pageToLoad);
      if request.Some? {
        FinishFetch(result);
      }
    }

    /** `deleteBookmark(id)` run to completion, with the backend's answer to the
        delete (`remote`) and to the refetch it may issue (`refetch`). */
    method DeleteBookmark(id: string, remote: MutationResult, refetch: QueryResult)
      returns (request: Option<Window>)
      requires Valid()
      modifies this`bookmarks, this`totalCount, this`page, this`dataLoading, this`errorMessage, this`successMessage
      ensures Valid()
      ensures dataLoading == old(dataLoading)
      // an id the page does not show: nothing happens
      ensures !HasId(old(bookmarks), id) ==>
        && request == None
        && bookmarks == old(bookmarks) && totalCount == old(totalCount) && page == old(page)
        && errorMessage == old(errorMessage) && successMessage == old(successMessage)
      // the delete failed: the optimistic removal is rolled back, the record going to the front
      ensures HasId(old(bookmarks), id) && remote.Failed? ==>
        && request == None
        && bookmarks == [Find(old(bookmarks), id).value] + RemoveId(old(bookmarks), id)
        && totalCount == old(totalCount) && page == old(page)
        && errorMessage == remote.message && successMessage == ""
      // the delete emptied a page after the first: step back one page
      ensures HasId(old(bookmarks), id) && remote.Done? && |old(bookmarks)| == 1 && old(page) > 0 ==>
        && request == None
        && bookmarks == RemoveId(old(bookmarks), id) && totalCount == old(totalCount) - 1
        && page == old(page) - 1
        && successMessage == DeletedMessage && errorMessage == ""
      // otherwise: stay on the page and refetch it
      ensures HasId(old(bookmarks), id) && remote.Done? && !(|old(bookmarks)| == 1 && old(page) > 0) ==>
        && page == old(page)
        && request == (if old(dataLoading) then None else Some(FetchWindow(old(page))))
        && bookmarks == (if old(dataLoading) then RemoveId(old(bookmarks), id)
                         else ListAfterFetch(RemoveId(old(bookmarks), id), refetch))
        && totalCount == (if old(dataLoading) then old(totalCount) - 1
                          else CountAfterFetch(old(totalCount) - 1, refetch))
        && errorMessage == (if old(dataLoading) then "" else ErrorAfterFetch("", refetch))
        && successMessage == (if old(dataLoading) then DeletedMessage
                              else SuccessAfterFetch(DeletedMessage, refetch))
    {
      request := None;
      var found := Find(bookmarks, id);
      if found.None? {
        return;
      }
      var item := found.value;
      var before := bookmarks;

      bookmarks := RemoveId(bookmarks, id);
      totalCount := totalCount - 1;

      if remote.Failed? {
        bookmarks := [item] + bookmarks;
        totalCount := totalCount + 1;
        ShowError(remote.message);
        return;
      }

      ShowSuccess(DeletedMessage);
      if |before| == 1 && page > 0 {
        page := page - 1;
      } else {
        request := FetchBookmarks(page, refetch);
      }
    }

    /** Prev: `Math.max(0, p - 1)`. The button is rendered only when there is
        more than one page. */
    method Prev()
      requires Valid()
      requires TotalPages(totalCount) > 1
      modifies this`page
      ensures Valid()
      ensures page == PrevPage(old(page))
      ensures old(page) < TotalPages(totalCount) ==> page < TotalPages(totalCount)
    {
      page := PrevPage(page);
      if old(page) < TotalPages(totalCount) {
        PrevStaysInRange(old(page), TotalPages(totalCount));
      }
    }

    /** Next: `Math.min(totalPages - 1, p + 1)`. The button is rendered only
        when there is more than one page. */
    method Next()
      requires Valid()
      requires TotalPages(totalCount) > 1
      modifies this`page
      ensures Valid()
      ensures page == NextPage(old(page), TotalPages(totalCount))
      ensures old(page) < TotalPages(totalCount) ==> page < TotalPages(totalCount)
    {
      page := NextPage(page, TotalPages(totalCount));
    }

    /** First phase of `addBookmark`: both slots are cleared; an invalid URL is
        reported and nothing is inserted; a valid one raises the action flag and
        issues the insert of the form's title and URL. */
    method BeginAdd(urlValid: bool) returns (insert: Option<NewBookmark>)
      requires Valid()
      modifies this`errorMessage, this`successMessage, this`actionLoading
      ensures Valid()
      ensures successMessage == ""
      ensures !urlValid ==> insert == None && errorMessage == InvalidUrlMessage
      ensures !urlValid ==> actionLoading == old(actionLoading)
      ensures urlValid ==> insert == Some(NewBookmark(title, url)) && errorMessage == ""
      ensures urlValid ==> actionLoading
    {
      errorMessage := "";
      successMessage := "";
      if !urlValid {
        ShowError(InvalidUrlMessage);
        return None;
      }
      actionLoading := true;
      insert := Some(NewBookmark(title, url));
    }

    /** Second phase of `addBookmark`, given the insert's answer `remote` and the
        answer `refetch` to the fetch of page 0 it issues on success. An error
        is shown and leaves the form filled in; a success empties the form and
        goes to page 0. The action flag is lowered either way. */
    method FinishAdd(remote: MutationResult, refetch: QueryResult) returns (request: Option<Window>)
      requires Valid()
      modifies this
      ensures Valid()
      ensures !actionLoading && dataLoading == old(dataLoading)
      ensures remote.Failed? ==>
        && request == None
        && title == old(title) && url == old(url) && page == old(page)
        && bookmarks == old(bookmarks) && totalCount == old(totalCount)
        && errorMessage == remote.message && successMessage == ""
      ensures remote.Done? ==>
        && title == "" && url == "" && page == 0
        && request == (if old(dataLoading) then None else Some(FetchWindow(0)))
        && bookmarks == (if old(dataLoading) then old(bookmarks)
                         else ListAfterFetch(old(bookmarks), refetch))
        && totalCount == (if old(dataLoading) then old(totalCount)
                          else CountAfterFetch(old(totalCount), refetch))
        && errorMessage == (if old(dataLoading) then old(errorMessage)
                            else ErrorAfterFetch(old(errorMessage), refetch))
        && successMessage == (if old(dataLoading) then old(successMessage)
                              else SuccessAfterFetch(old(successMessage), refetch))
    {
      request := None;
      if remote.Failed? {
        ShowError(remote.message);
      } else {
        title := "";
        url := "";
        page := 0;
        request := FetchBookmarks(0, refetch);
      }
      actionLoading := false;
    }

    /** `addBookmark` run to completion: `urlValid` is the browser's verdict on
        the URL field, `remote` the insert's answer, `refetch` the answer to the
        fetch of page 0. */
    method AddBookmark(urlValid: bool, remote: MutationResult, refetch: QueryResult)
      returns (insert: Option<NewBookmark>, request: Option<Window>)
      requires Valid()
      modifies this
      ensures Valid()
      ensures dataLoading == old(dataLoading)
      // an invalid URL: only the message slots change, and nothing is sent
      ensures !urlValid ==>
        && insert == None && request == None
        && errorMessage == InvalidUrlMessage && successMessage == ""
        && title == old(title) && url == old(url) && page == old(page)
        && bookmarks == old(bookmarks) && totalCount == old(totalCount)
        && actionLoading == old(actionLoading)
      ensures urlValid ==> insert == Some(NewBookmark(old(title), old(url))) && !actionLoading
      // the insert failed: the form keeps its contents for a retry
      ensures urlValid && remote.Failed? ==>
        && request == None
        && errorMessage == remote.message && successMessage == ""
        && title == old(title) && url == old(url) && page == old(page)
        && bookmarks == old(bookmarks) && totalCount == old(totalCount)
      // the insert succeeded: empty form, page 0, and page 0 fetched
      ensures urlValid && remote.Done? ==>
        && title == "" && url == "" && page == 0
        && request == (if old(dataLoading) then None else Some(FetchWindow(0)))
        && bookmarks == (if old(dataLoading) then old(bookmarks)
                         else ListAfterFetch(old(bookmarks), refetch))
        && totalCount == (if old(dataLoading) then old(totalCount)
                          else CountAfterFetch(old(totalCount), refetch))
        && errorMessage == (if old(dataLoading) then "" else ErrorAfterFetch("", refetch))
        && successMessage == ""
    {
      request := None;
      insert := BeginAdd(urlValid);
      if insert.Some? {
        request := FinishAdd(remote, refetch);
      }
    }
  }
}
