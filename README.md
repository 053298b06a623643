# Bookmark manager: the Home page state machine

The bookmark manager is a single-page app. A signed-in user lists, adds and
deletes bookmarks. The bookmarks are stored in a hosted database that pages
the list 20 records at a time and reports an exact total. All of the app's
client-side logic lives in the `Home` page component (`src/app/page.tsx`).
That logic keeps:

- a cached page of bookmark records and the total count;
- a page index;
- a fetch-in-flight flag and an action-in-flight flag;
- an error slot and a success slot for notices;
- the add form's title and URL.

The component's handlers change this state step by step. The first handler is
the page fetch. It has a guard that drops a fetch while another one is in
flight. The second is add, which validates the URL, resets the form and jumps
to page 0. The third is delete, which removes the record optimistically and
rolls back if the remote call fails. When delete empties a page after the
first, it steps back one page. The last handlers are the Prev/Next clamps and
the two notices, which exclude each other.

The project models this in four modules:

- `Records` (records.dfy): the bookmark record, the row an insert sends, and
  the answers of the backend's query, insert and delete calls.
- `Pagination` (pagination.dfy): the page size, the page count, the index
  window a fetch asks for, and the Prev/Next clamps. Each comes with lemmas.
- `BookmarkList` (bookmark_list.dfy): lookup by id (`find`), the optimistic
  removal (`filter`) and the rollback that puts the record back at the front.
  Each comes with lemmas.
- `HomePage` (home.dfy): the class `Home`. Its fields are the component's
  `useState` variables and its methods are the handlers. `Valid()` says two
  things: the page index is never negative, and at most one notice slot is
  filled. Every handler keeps `Valid()`.

Each backend call's answer becomes a parameter. A query answers either with
rows and a count or with an error message. An insert or a delete answers
either `Done` or with an error message. The browser's URL check becomes a
boolean parameter.

Fetch and add come in two phases (`Begin*`/`Finish*`), so the in-flight flags
can be seen between them. `FetchBookmarks` and `AddBookmark` run both phases
in one step. `DeleteBookmark` and `FinishAdd` call `FetchBookmarks` where the
code calls `fetchBookmarks`.

Three behaviours of the code are worth stating plainly, and the model keeps
each as written:

- A failed delete puts the record back at the FRONT of the list
  (src/app/page.tsx:164), not at its old position. So the list is restored only up to permutation (with unique
  ids), and it is identical only when the record was already first
  (`RollbackRestoresOnlyFirst`).
- The realtime callbacks refetch the page captured when the subscription was
  made, not the page being viewed (src/app/page.tsx:86-110).
- The 3-second notice timers (src/app/page.tsx:193, 199) are never cancelled
  or reset. Each timer empties its slot whatever the slot holds when the timer
  fires.

## Model

| member | source | states |
|---|---|---|
| `Pagination.TotalPages` | src/app/page.tsx:43 | The page count covers the total (`pages*20 >= totalCount`) and one page fewer would not (`(pages-1)*20 < totalCount`). It is non-negative for a non-negative total and at least 1 for a positive one. |
| `Pagination.TotalPagesIsCeiling` | src/app/page.tsx:43 | Those two bounds hold of exactly one number, so `TotalPages` is the ceiling of `totalCount / 20` (both directions). |
| `Pagination.FetchWindow` | src/app/page.tsx:66-67 | The window for page `p` spans exactly 20 indices. It starts on a multiple of 20, and that multiple is `p`. |
| `Pagination.AdjacentWindows` | src/app/page.tsx:66-67 | The windows of pages `p` and `p+1` are adjacent: the second starts right after the first ends. |
| `Pagination.WindowOfIndex` | src/app/page.tsx:66-73 | An index lies in the window of page `p` if and only if `p == i / 20`. So the windows tile the indices and never overlap. |
| `Pagination.PageHasRecords` | src/app/page.tsx:43-67 | For `p >= 0`, page `p`'s window starts below the total if and only if `p < TotalPages(totalCount)`. |
| `Pagination.PrevPage` | src/app/page.tsx:240 | The Prev update is the larger of 0 and `p-1`: it is at least both, and equal to one of them. |
| `Pagination.NextPage` | src/app/page.tsx:252 | The Next update is the smaller of `totalPages-1` and `p+1`: it is at most both, and equal to one of them. |
| `Pagination.PrevStaysInRange` | src/app/page.tsx:237-241 | From `0 <= p < totalPages`, Prev stays in range. It steps back by one, except on page 0, where it stays put. |
| `Pagination.NextStaysInRange` | src/app/page.tsx:251-253 | From `0 <= p < totalPages`, Next stays in range. It steps forward by one, except on the last page, where it stays put. |
| `BookmarkList.FindIndex` | src/app/page.tsx:150 | The index returned holds the id, and no earlier index does. The result is `|s|` exactly when no record has the id. |
| `BookmarkList.Find` | src/app/page.tsx:150-151 | `find` yields nothing exactly when no record has the id. Otherwise it yields a record of the list with that id, namely the first one. |
| `BookmarkList.RemoveId` | src/app/page.tsx:154 | The filter never grows the list and keeps no record with the removed id. |
| `BookmarkList.RemoveIdMembers` | src/app/page.tsx:154 | A record survives the filter if and only if it was in the list and has another id. |
| `BookmarkList.RemoveIdAppend` | src/app/page.tsx:154 | The filter distributes over concatenation, so the records it keeps stay in their original relative order. |
| `BookmarkList.RemoveIdAbsent` | src/app/page.tsx:150-154 | Filtering out an id the list does not hold gives back the list unchanged. |
| `BookmarkList.RemoveOnlyOccurrence` | src/app/page.tsx:154 | If a record's id occurs nowhere else in the list, the filter on that id takes out exactly that record. |
| `BookmarkList.RemoveIdUnique` | src/app/page.tsx:150-155 | With unique ids, the filter removes exactly the record found (`s[..k] + s[k+1..]`). The list loses exactly one entry, which matches the count's `- 1`. |
| `BookmarkList.RollbackIsPermutation` | src/app/page.tsx:162-165 | With unique ids, `[item, ...filtered]` has the same records as the list before the delete: a permutation. |
| `BookmarkList.RollbackRestoresOnlyFirst` | src/app/page.tsx:164 | With unique ids, the rollback gives back the identical list if and only if the deleted record was first. |
| `BookmarkList.RollbackKeepsUniqueIds` | src/app/page.tsx:164 | The rolled-back list still has unique ids. |
| `BookmarkList.EmptiedPage` | src/app/page.tsx:172 | With unique ids, the optimistic removal empties the page if and only if the page held one record, which is the delete handler's `length === 1` test. |
| `HomePage.ListAfterFetch` | src/app/page.tsx:75-78 | The list after a fetch: on success exactly the returned rows, or `[]` when they are null; on error the cached list. |
| `HomePage.CountAfterFetch` | src/app/page.tsx:75-79 | The total after a fetch: on success exactly the returned count, or 0 when it is null; on error the cached total. |
| `HomePage.ErrorAfterFetch` | src/app/page.tsx:75-76 | The error slot after a fetch: the error's message on error (`showError`), unchanged on success. |
| `HomePage.SuccessAfterFetch` | src/app/page.tsx:75-76 | The success slot after a fetch: emptied on error (`showError` clears it), unchanged on success. |
| `HomePage.FetchReplacesWholesale` | src/app/page.tsx:77-80 | After a successful fetch the list and the total do not depend on what was cached before: nothing stale is kept. |
| `HomePage.FetchKeepsNoticesExclusive` | src/app/page.tsx:75-80 | A fetch keeps at most one notice slot filled, and a failed fetch leaves the cached list and total as they were. |
| `HomePage.Home.constructor` | src/app/page.tsx:28-41 | The initial state: empty list, count 0, page 0, both flags down, empty notices and form, and `Valid()`. |
| `HomePage.Home.ShowError` | src/app/page.tsx:190-194 | The error slot gets the message and the success slot is emptied. Nothing else changes. |
| `HomePage.Home.ShowSuccess` | src/app/page.tsx:196-200 | The success slot gets the message and the error slot is emptied. Nothing else changes. |
| `HomePage.Home.ExpireError` | src/app/page.tsx:193 | The error timer empties the error slot unconditionally. Nothing else changes. |
| `HomePage.Home.ExpireSuccess` | src/app/page.tsx:199 | The success timer empties the success slot unconditionally. Nothing else changes. |
| `HomePage.Home.HandleCopy` | src/app/page.tsx:180-183 | Copying shows the copied notice and empties the error slot. |
| `HomePage.Home.SetTitle` | src/app/page.tsx:217 | The title field takes the typed value. Nothing else changes. |
| `HomePage.Home.SetUrl` | src/app/page.tsx:221 | The URL field takes the typed value. Nothing else changes. |
| `HomePage.Home.BeginFetch` | src/app/page.tsx:61-73 | If a fetch is already in flight, the call is dropped: no request is issued. Otherwise the flag is raised and the page's window is requested. Either way the flag is up afterwards. |
| `HomePage.Home.FinishFetch` | src/app/page.tsx:75-82 | The list, total and both notice slots become `ListAfterFetch`, `CountAfterFetch`, `ErrorAfterFetch` and `SuccessAfterFetch` of their old values and the answer: rows replace the cache wholesale, an error keeps it and is shown. The flag is lowered either way. |
| `HomePage.Home.FetchBookmarks` | src/app/page.tsx:61-83 | Run to completion, a fetch started while another is in flight changes nothing. Otherwise it requests the page's window and applies the answer as `FinishFetch` does. The flag ends where it started. |
| `HomePage.Home.DeleteBookmark` | src/app/page.tsx:149-177 | Unknown id: a no-op. Failed delete: the list becomes `[item] + RemoveId(before)`, the count is back to its old value, and the error is shown. Deleting the only record of a page after the first: the page drops by exactly 1, the list is filtered, the count drops by 1, and the success notice is shown. Otherwise the page stays, the success notice is shown, and the same page is refetched over the filtered list and the count minus 1. |
| `HomePage.Home.Prev` | src/app/page.tsx:237-240 | Only when more than one page exists (the button's render guard): the page becomes `PrevPage(page)`, stays non-negative, and a page below `totalPages` stays below. |
| `HomePage.Home.Next` | src/app/page.tsx:237-252 | Only when more than one page exists (the button's render guard): the page becomes `NextPage(page, totalPages)`, stays non-negative, and a page below `totalPages` stays below. |
| `HomePage.Home.BeginAdd` | src/app/page.tsx:118-133 | Both slots are cleared first. An invalid URL fills the error slot, sends no insert and leaves the action flag alone. A valid one raises the action flag and sends the form's title and URL. |
| `HomePage.Home.FinishAdd` | src/app/page.tsx:135-145 | Insert error: the form keeps its contents, the error is shown, and nothing else changes. Success: title and URL become `""`, the page becomes 0, and page 0 is fetched. The action flag is lowered either way. |
| `HomePage.Home.AddBookmark` | src/app/page.tsx:118-146 | Run to completion. An invalid URL changes only the notice slots and sends nothing. A valid one sends exactly the form's title and URL and ends with the action flag down. On failure the form is kept; on success the form is emptied, the page is 0, and page 0 is fetched. |

## Left out

- The backend's query, insert and delete calls (src/app/page.tsx:69-73, 131-133, 157-160) are foreign calls. The model receives their answers as parameters. So the model cannot show that a page holds at most 20 records, that it is sorted newest-first, or that refetching an unchanged page gives the same list. Only the backend guarantees these.
- The insert's `user_id` (the signed-in user's id) is not part of the modelled request. Authentication, sign-in and sign-out (src/app/page.tsx:47-58, 185-188) are left out, and so is the user-dependent rendering of the loading and sign-in screens.
- URL validation uses the browser's `URL` constructor (src/app/page.tsx:123). The model takes its verdict as the boolean `urlValid`.
- The effects that fetch on sign-in (src/app/page.tsx:89), on realtime events (src/app/page.tsx:97, 104) and on a page change (src/app/page.tsx:113-115) are not separate members. Each is a `FetchBookmarks` call with the page that effect captured. After `DeleteBookmark` steps back a page, or `AddBookmark` jumps to page 0, the page-change fetch is that separate step.
- React's asynchronous interleaving and stale closures are not modelled. Each handler is one atomic step over the current fields. For example, the fetch guard really reads the `dataLoading` of the render that created the closure, and the delete's `length === 1` and `page > 0` tests read values from the render before the delete. Nothing is claimed about concurrent events.
- The Prev and Next buttons' `disabled` guards (src/app/page.tsx:241, 253: `page === 0 || dataLoading` and `page >= totalPages - 1 || dataLoading`) are not preconditions of `Prev` and `Next`. The methods model the click handlers' clamps alone, which `PrevStaysInRange` and `NextStaysInRange` show keep an in-range page in range. Outside that range the clamp alone can move the page backwards (`NextPage(5, 2) == 1`); only the disabled guard keeps such a click out of the UI.
- The notice timers (src/app/page.tsx:193, 199) are the explicit steps `ExpireError` and `ExpireSuccess`. The 3-second delay itself is not modelled.
- The clipboard write in `handleCopy` (src/app/page.tsx:181) is a foreign call and is left out. The `append` parameter of `fetchBookmarks` is never used by the code, so it is not modelled.
- Counts and page indices are unbounded integers. JavaScript numbers lose precision beyond 2^53, which a bookmark count never reaches.
- The title auto-fetch in src/components/AddBookmarkForm.tsx:22-35 uses the network and a third-party site, and is left out. The presentation components (Header, Notification, UserAvatar, AuthScreen, LoadingScreen, BookmarkItem, BookmarkList) only render and have no logic to model.
