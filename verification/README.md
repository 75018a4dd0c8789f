# Task list and API explorer state, modelled in Dafny

This project models the two stateful parts of a small React single-page app.

- **Task manager** (`src/components/TaskManager.tsx`). This is an ordered list of task records, kept in local storage. Tasks are added from a text box (the text is trimmed, and blank input is refused). Each task's `completed` flag can be toggled, and tasks are deleted by id. The list is shown through one of three filters (`all`, `active`, `completed`), with active and completed counts beside it.
- **API data explorer** (`src/components/ApiDataDisplay.tsx`). This holds two cached remote collections, users and posts, plus a `loading` flag, a search term, a 1-based page number and the selected view. A fetch either replaces a cache or keeps it, and it always clears `loading`. Handlers reset the page and the search. A pure pipeline derives the visible page from this state. It filters by case-insensitive substring search over fixed fields and cuts pages of six with `slice`. Previous and Next move one page and stop at the first and last page.

Files:

- `text.dfy` (module `Text`): ASCII-level versions of `trim`, `toLowerCase` and `includes`.
- `seqs.dfy` (module `Seqs`): `Array.prototype.filter` as `Filter`, order-preserving subsequences, and the partition lemma.
- `tasks.dfy` (module `Tasks`): the task records, the filter views and counts, and the class `TaskManager`. This class holds the component's state fields and has one method per handler.
- `api_data.dfy` (module `ApiData`): users and posts, search, pagination, the auto-fetch rule, and the class `ApiDataDisplay`. This class holds the component's state fields and has one method per handler.

Side effects are modelled as follows:

- A network request is two events. It starts inside `RunAutoFetch` or `HandleRefresh`, which sets `loading`. It settles in `SettleUsersFetch` or `SettlePostsFetch`, which store the outcome and clear `loading`. The outcome is a parameter: a loaded array, a non-ok response, or a thrown exception.
- `Date.now()` and `new Date().toISOString()` are parameters of `AddTask`.
- The list read from local storage is the constructor's parameter.

Behaviour of the code worth noting:

- The page count is `Math.ceil(n / 6)`, so an empty result has 0 pages.
- A failed fetch has no separate error state. It only clears `loading` and keeps the cache.
- The auto-fetch effect runs on mount and then only when `selectedView`, `users.length` or `posts.length` changes. A failed fetch changes none of them, so on its own it triggers no retry. A later change of view, a Refresh, or another fetch that changes a cache's length can start one.
- The Refresh button is disabled while `loading`, so `HandleRefresh` requires `!loading`.
- The code never checks that task ids are unique. `DistinctIds` is therefore proved to be kept only when the id given to `AddTask` is fresh.

## Model

| member | source | states |
|---|---|---|
| `Text.Trim` | src/components/TaskManager.tsx:28-31 | the result is `s` with exactly the leading and trailing white space removed; it is empty iff `s` is all white space, and otherwise starts and ends with a non-space |
| `Text.IsBlank` | src/components/TaskManager.tsx:28 | `addTask` refuses the input exactly when every character of it is white space, the empty input included |
| `Text.TrimIdempotent` | src/components/TaskManager.tsx:31 | trimming an already trimmed text changes nothing, so a stored task text is a fixed point of `trim` |
| `Text.ToLower` | src/components/ApiDataDisplay.tsx:97-106 | same length, each character case-folded (A-Z to a-z), no upper-case letter left |
| `Text.ToLowerIdempotent` | src/components/ApiDataDisplay.tsx:97-106 | folding twice is folding once |
| `Text.Contains` | src/components/ApiDataDisplay.tsx:97-106 | `includes` holds iff the term occurs at some index of the string |
| `Text.ContainsEmpty` | src/components/ApiDataDisplay.tsx:97-106 | every string includes the empty string |
| `Seqs.Filter` | src/components/TaskManager.tsx:76-80 | `filter` keeps exactly the elements satisfying the predicate: the result is an order-preserving subsequence, every kept element satisfies it, every satisfying element is kept, as often as it occurs in the input (the result's multiset is the input's restricted to satisfying elements) |
| `Seqs.FilterPartition` | src/components/TaskManager.tsx:97-98 | filtering by a predicate and by its negation splits the input: the multisets add up to the input's and the lengths to its length |
| `Tasks.CompletedCount` | src/components/TaskManager.tsx:97 | `completedCount` is at most the list length and is zero exactly when no task is completed |
| `Tasks.ActiveCount` | src/components/TaskManager.tsx:98 | `activeCount` is at most the list length and is zero exactly when every task is completed |
| `Tasks.FilteredTasks` | src/components/TaskManager.tsx:76-80 | `all` gives the whole list; `active` / `completed` give exactly the tasks with `!completed` / `completed`, in list order, with length `activeCount` / `completedCount` |
| `Tasks.CountsAddUp` | src/components/TaskManager.tsx:97-98 | `activeCount + completedCount == tasks.length`; the active and completed views together are the list as a multiset and share no task |
| `Tasks.Toggled` | src/components/TaskManager.tsx:48-52 | same length; tasks with another id unchanged; a task with the id changes only in `completed`, which is negated |
| `Tasks.ToggleInvolution` | src/components/TaskManager.tsx:48-52 | toggling the same id twice gives back the original list |
| `Tasks.ToggleAbsent` | src/components/TaskManager.tsx:48-52 | toggling an id not in the list leaves it unchanged |
| `Tasks.ToggleKeepsInvariants` | src/components/TaskManager.tsx:48-52 | toggling keeps ids distinct and texts trimmed |
| `Tasks.WithoutId` | src/components/TaskManager.tsx:65 | delete keeps exactly the tasks with another id, each as often as it occurs, as an order-preserving subsequence; no remaining task has the id |
| `Tasks.DeleteAbsent` | src/components/TaskManager.tsx:65 | deleting an id not in the list leaves it unchanged |
| `Tasks.DeleteRemovesOne` | src/components/TaskManager.tsx:65 | with distinct ids, deleting a present id makes the list exactly one shorter |
| `Tasks.SubsequenceKeepsDistinctIds` | src/components/TaskManager.tsx:65 | any subsequence of a list with distinct ids, so the list after delete, has distinct ids |
| `Tasks.SubsequenceKeepsTrimmedTexts` | src/components/TaskManager.tsx:65 | any subsequence of a list with trimmed texts, so the list after delete, has trimmed texts |
| `Tasks.DeleteKeepsInvariants` | src/components/TaskManager.tsx:65 | deleting keeps ids distinct and texts trimmed |
| `Tasks.TaskManager.constructor` | src/components/TaskManager.tsx:21-24 | initial state: the stored list, empty input, filter `all`, priority `medium` |
| `Tasks.TaskManager.Visible` | src/components/TaskManager.tsx:76-80 | the rendered list for the selected filter mode: an order-preserving subsequence of the tasks holding exactly those the mode shows; the whole list for `all` |
| `Tasks.TaskManager.SetNewTaskText` | src/components/TaskManager.tsx:132 | the input text becomes the typed text; nothing else changes |
| `Tasks.TaskManager.SetPriority` | src/components/TaskManager.tsx:139 | the selected priority changes; nothing else does |
| `Tasks.TaskManager.SetFilter` | src/components/TaskManager.tsx:155-175 | the filter mode changes; nothing else does |
| `Tasks.TaskManager.AddTask` | src/components/TaskManager.tsx:27-45 | blank input leaves list and input unchanged; otherwise the list is the old list plus one task (the given id, the trimmed text, not completed, the given timestamp, the selected priority) and the input is cleared; ids stay distinct when the id is fresh; texts stay trimmed |
| `Tasks.TaskManager.ToggleTask` | src/components/TaskManager.tsx:47-52 | the list becomes `Toggled(old list, id)`; the inputs are unchanged; distinct ids and trimmed texts are kept |
| `Tasks.TaskManager.DeleteTask` | src/components/TaskManager.tsx:63-65 | the list becomes `WithoutId(old list, id)`; the inputs are unchanged; distinct ids and trimmed texts are kept |
| `ApiData.FieldMatches` | src/components/ApiDataDisplay.tsx:97-106 | the empty term matches every field, and a matching term is no longer than the field |
| `ApiData.UserMatches` | src/components/ApiDataDisplay.tsx:97-101 | the empty term matches every user; a matching term is no longer than the name, the email or the company name |
| `ApiData.PostMatches` | src/components/ApiDataDisplay.tsx:103-106 | the empty term matches every post; a matching term is no longer than the title or the body |
| `ApiData.FieldMatchIgnoresCase` | src/components/ApiDataDisplay.tsx:97-106 | lower-casing the field or the term first changes no field match |
| `ApiData.UserMatchIgnoresCase` | src/components/ApiDataDisplay.tsx:97-101 | lower-casing the search term first changes no user's verdict |
| `ApiData.PostMatchIgnoresCase` | src/components/ApiDataDisplay.tsx:103-106 | lower-casing the search term first changes no post's verdict |
| `ApiData.FilteredUsers` | src/components/ApiDataDisplay.tsx:97-101 | a user is kept iff the folded term occurs in the folded name, email or company name, each matching user as often as it is cached; the result is an order-preserving subsequence of the cache |
| `ApiData.FilteredPosts` | src/components/ApiDataDisplay.tsx:103-106 | a post is kept iff the folded term occurs in the folded title or body, each matching post as often as it is cached; the result is an order-preserving subsequence of the cache |
| `ApiData.EmptyTermMatchesAll` | src/components/ApiDataDisplay.tsx:97-106 | with the empty term both filtered lists equal their caches |
| `ApiData.NoMatchNoPages` | src/components/ApiDataDisplay.tsx:97-109 | a term no record matches gives an empty list and zero pages |
| `ApiData.TotalPages` | src/components/ApiDataDisplay.tsx:109 | `ceil(n/6)`: zero iff `n == 0`, and `6*(pages-1) < n <= 6*pages` otherwise |
| `ApiData.SliceBound` | src/components/ApiDataDisplay.tsx:111 | a `slice` bound lands in `[0, len]`; a non-negative bound is clamped to the length; a negative bound counts back from the end, and one reaching past the start becomes 0 |
| `ApiData.Slice` | src/components/ApiDataDisplay.tsx:111 | for non-negative bounds `slice` is the infix between the clamped bounds, empty when they cross |
| `ApiData.StartIndex` | src/components/ApiDataDisplay.tsx:110 | page `p >= 1` starts at a non-negative multiple of six, after exactly `p - 1` full pages |
| `ApiData.PageOf` | src/components/ApiDataDisplay.tsx:110-111 | a page holds at most six items and, for page >= 1, is the infix from `6(p-1)` to `6p`, clamped to the length |
| `ApiData.PageSizes` | src/components/ApiDataDisplay.tsx:109-111 | for `1 <= p <= totalPages`, page `p` is `data[6(p-1) .. min(n, 6p)]`; it has six items except the last, which has `n - 6(totalPages-1)`, between one and six |
| `ApiData.PagesBeyondLastAreEmpty` | src/components/ApiDataDisplay.tsx:109-111 | pages after `totalPages` are empty |
| `ApiData.ItemOnItsPage` | src/components/ApiDataDisplay.tsx:109-111 | item `i` is on page `i/6 + 1`, which exists, at position `i % 6`: the pages cover the list in order |
| `ApiData.PageBefore` | src/components/ApiDataDisplay.tsx:278 | Previous goes one page back and never below 1 |
| `ApiData.PageAfter` | src/components/ApiDataDisplay.tsx:289 | Next goes one page on and never past `totalPages` |
| `ApiData.NavigationStaysInRange` | src/components/ApiDataDisplay.tsx:273-290 | from a page in `[1, totalPages]`, both buttons stay in that range |
| `ApiData.AutoFetchTarget` | src/components/ApiDataDisplay.tsx:89-95 | a request is issued only for the selected view, and exactly when that view's cache is empty |
| `ApiData.EffectRequest` | src/components/ApiDataDisplay.tsx:89-95 | with the dependencies `[selectedView, users.length, posts.length]` unchanged since the last run the effect does nothing; otherwise it issues what `AutoFetchTarget` names |
| `ApiData.MountFetchesOnce` | src/components/ApiDataDisplay.tsx:45-95 | on mount the effect requests the users; whatever that request's outcome, the effect's next run requests nothing |
| `ApiData.ApiDataDisplay.constructor` | src/components/ApiDataDisplay.tsx:35-40 | initial state: empty caches, not loading, empty search, page 1, users view; the effect has not run yet |
| `ApiData.ApiDataDisplay.MatchCount` | src/components/ApiDataDisplay.tsx:108 | `currentData.length` is at most the selected cache's size, and equals it when the search is empty |
| `ApiData.ApiDataDisplay.PageCount` | src/components/ApiDataDisplay.tsx:109 | zero pages exactly when nothing matches; otherwise the fewest pages of six that hold every match |
| `ApiData.ApiDataDisplay.ControlsShown` | src/components/ApiDataDisplay.tsx:198-273 | the Previous / Next controls are rendered exactly when not loading and more than six records match |
| `ApiData.ApiDataDisplay.PaginatedData` | src/components/ApiDataDisplay.tsx:108-111 | cards of the selected kind; one to six of them while the page is in range, none past the last page |
| `ApiData.ApiDataDisplay.RunAutoFetch` | src/components/ApiDataDisplay.tsx:89-95 | does nothing while the dependencies equal those of its last run; otherwise issues the request `AutoFetchTarget` names and sets `loading` if it issues one; records the dependencies; caches and view state unchanged |
| `ApiData.ApiDataDisplay.SettleUsersFetch` | src/components/ApiDataDisplay.tsx:45-65 | a loaded array replaces the user cache wholesale, a failure keeps it; `loading` is false after both; posts and view state unchanged |
| `ApiData.ApiDataDisplay.SettlePostsFetch` | src/components/ApiDataDisplay.tsx:67-87 | a loaded array replaces the post cache wholesale, a failure keeps it; `loading` is false after both; users and view state unchanged |
| `ApiData.ApiDataDisplay.HandleRefresh` | src/components/ApiDataDisplay.tsx:113-121 | page 1, empty search, a request for the selected view, `loading` set; caches untouched |
| `ApiData.ApiDataDisplay.SelectView` | src/components/ApiDataDisplay.tsx:140-154 | the view is selected, page 1, empty search; caches and `loading` untouched |
| `ApiData.ApiDataDisplay.EditSearch` | src/components/ApiDataDisplay.tsx:175-178 | the term is the new text, page 1; caches, view and `loading` untouched |
| `ApiData.ApiDataDisplay.Previous` | src/components/ApiDataDisplay.tsx:273-282 | the page becomes `max(1, p-1)`; it stays at least 1 and stays within `totalPages` if it was |
| `ApiData.ApiDataDisplay.Next` | src/components/ApiDataDisplay.tsx:286-291 | the page becomes `min(totalPages, p+1)` and lies in `[1, totalPages]`; caches and search unchanged |

## Left out

- Rendering and presentation are not modelled. This covers every component in `HeroSection.tsx`, `Footer.tsx`, `Navbar.tsx`, `Card.tsx` and `pages/Index.tsx`, plus `getPriorityColor`, `toLocaleDateString` and the theme toggle. None of them holds state the two components depend on.
- Toast notifications are left out. They are fire-and-forget and return nothing the state depends on. This includes the lookup of the toggled or deleted task that picks the toast text.
- `handleKeyPress` is not a separate member. Enter calls `addTask` unchanged, so `AddTask` covers it.
- `useLocalStorage` and its serialization are not modelled; the hook's source is not part of this model. The list read at start-up is the constructor's parameter, and the write after each change is not modelled.
- The network, the two endpoint URLs and JSON parsing are not modelled. A request's result is a `FetchOutcome` parameter, and a loaded array is assumed to have the record shape.
- A settlement is not tied to the request it answers. Any number of requests may be in flight, and `loading` is one flag shared by both kinds. Settlements and handler calls may come in any order, including a late response that overwrites a cache. The model does not track which requests are outstanding.
- ApiData.ApiDataDisplay.RunAutoFetch: the environment may fire it at any time, while React runs the effect after every render whose dependencies changed. A call does nothing unless the dependencies differ from those of its last run, but the model does not force a call after such a change.
- `Valid` only keeps `currentPage >= 1`. A request that settles while the page is above 1 can shrink the data and leave the page past `totalPages`. That page is then empty (`PagesBeyondLastAreEmpty`), so `currentPage <= totalPages` is not an invariant of the component.
- Text.Trim: strips only ASCII white space. JavaScript's `trim` also strips Unicode spaces, the no-break space, the byte-order mark and the line and paragraph separators.
- Text.ToLower: folds only A-Z. JavaScript's `toLowerCase` applies full Unicode case mapping.
- Unbounded integers are used throughout. Ids from `Date.now()` and page arithmetic are far below 2^53, where JavaScript numbers are exact. `Math.ceil(n / 6)` over floating point equals the integer ceiling used here.
