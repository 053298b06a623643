/**
  The values the Home page works with: bookmark records as the backend returns
  them, the record the add form submits, and the answers of the hosted backend's
  query, insert and delete calls, which the model receives as parameters.
 */
module Records {

  datatype Option<+T> = None | Some(value: T) {
    /** The `??` operator: the value, or `default` when there is none. */
    function GetOr(default: T): T {
      match this
      case Some(v) => v
      case None => default
    }
  }

  /** One row of the bookmarks table (`type Bookmark` in the page). */
  datatype Bookmark = Bookmark(id: string, title: string, url: string, createdAt: string)

  /** The row the add form asks the backend to insert (the owner is left out). */
  datatype NewBookmark = NewBookmark(title: string, url: string)

  /** The answer to a page query: rows and an exact count, either of which may be
      null, or an error with its message. */
  datatype QueryResult =
    | Rows(data: Option<seq<Bookmark>>, count: Option<int>)
    | QueryError(message: string)

  /** The answer to an insert or a delete. */
  datatype MutationResult = Done | Failed(message: string)
}
