# Call dashboard client state, modelled in Dafny

This project models the client-side state logic of a call dashboard, a
Next.js/Redux front end:

- the **calls store** (`Calls`): an authoritative page of calls and a view
  derived from it by a filter key. It also holds the fetch lifecycle, the
  page setters, and the splice-by-id update shared by realtime pushes and by
  the add-note and archive successes.
- the **auth store** (`Auth`) and the **session ticket store** (`Tickets`).
- the **token refresher** (`TokenRefresh`): one refresh timer plus a refresh
  on focus.
- the **duration formatter** (`Duration`).
- the **calls page** (`CallsPage`): pagination arithmetic, the notes handed
  to the notes dialog, and the page's dialog state.
- the **login form** (`Login`): the email pattern, the validator and the
  form's touched and errors state.
- the **notes dialog** (`AddNotes`): labels, phone display, newest-first
  ordering and the note editor.
- the **route gate** (`RouteGate`): the edge middleware.

`Common` and `Text` hold the shared pieces:

- `Option`
- the request status
- order-preserving selection (`Filter`, `IsSubsequence`)
- JavaScript's `trim` and `toLowerCase`
- decimal rendering

How the model is built:

- Reducers that assign fields of the draft state are methods of a class
  (`Calls.CallStore`, `Auth.AuthStore`). Their `modifies` and `ensures`
  clauses state the whole new state.
- The `replace` helper's in-place write is an array write (`Calls.Replace`).
  Its `findIndex` is a loop (`Calls.FindIndex`).
- Immer gives each list its own copy, so `calls` and `backupCalls` are two
  distinct arrays.
- The clock (`Date.now()`) is a parameter `now` in epoch milliseconds.
- `crypto.randomUUID()` is a parameter `newId`.
- A request thunk is modelled by what it sends and by the payload it
  settles with.
- Note timestamps (`created_at`) are integers.

Where the code and its written description differ, the model follows the
code:

- `clearCalls` keeps `perPage` rather than restoring every initial value.
- A successful splice leaves exactly one call with the update's id only when
  ids are unique. The code replaces the first match only; see
  `Calls.SpliceUnique`.
- The access token is persisted in session storage. The route gate reads a
  cookie that none of the modelled code writes.
- Notes are kept when their trimmed content is non-empty. The content itself
  is passed on untrimmed.

Some behaviour follows from the code and is stated as lemmas:

- A spliced view is not filtered again (`Calls.SplicedViewIsNotRefiltered`).
  After a call is archived while the `unarchived` view is shown, the call
  stays in that view until a filter is chosen again.
- The archive request always rejects with some message, so the reducer's
  fallback "Failed to archive/unarchive" is never what it shows. With no
  message at all, the error reads "Failed to archive call"
  (`Calls.ArchiveRejectionMessage`).
- The gate accepts the ticket string `"false"`, which the browser-side
  `hasTicket` refuses (`RouteGate.GateAndTicketDisagreeOnFalse`).
- A password's minimum length is counted before trimming
  (`Login.ValidateMeaning`).

## Model

| member | source | states |
|---|---|---|
| Common.RejectionMessage | src/redux/features/Calls/callsSlice.ts:102-105 | the rejection text is the server's message if any, else the error's message, else the fallback |
| Text.TrimSpec | src/components/custom/AddNotes/index.tsx:56 | the trimmed string is the part of the input between a blank prefix and a blank suffix, and it neither starts nor ends with white space |
| Text.TrimEmptyIffBlank | src/components/custom/AddNotes/index.tsx:56-57 | a trimmed string is empty exactly when every character is JavaScript white space |
| Text.TrimIdempotent | src/redux/features/Calls/callsSlice.ts:124 | trimming twice is trimming once |
| Text.LowerIdempotent | src/redux/features/Calls/callsSlice.ts:124 | lower-casing twice is lower-casing once, and leaves no upper-case ASCII letter |
| Text.ParseNatToString | src/utils/helper.ts:12 | the decimal rendering of a count reads back as that count |
| Calls.NormaliseKeyIdempotent | src/redux/features/Calls/callsSlice.ts:124 | normalising a normalised key (lower-case, then trim) changes nothing |
| Calls.ParseFilterNormalised | src/redux/features/Calls/callsSlice.ts:124-134 | the selected criterion depends only on the normalised key |
| Calls.SelectIsSubsequence | src/redux/features/Calls/callsSlice.ts:123-134 | for every key the view is an order-preserving selection of `backupCalls`, and every shown call matches the key |
| Calls.SelectAll | src/redux/features/Calls/callsSlice.ts:126-127 | a key normalising to `all` shows a copy equal to `backupCalls` |
| Calls.SelectByType | src/redux/features/Calls/callsSlice.ts:132-134 | any other key keeps exactly the calls whose lower-cased type equals the key, as often as they occur; an unknown key is no error |
| Calls.ArchivedKey | src/redux/features/Calls/callsSlice.ts:128 | the key `archived` selects archived calls |
| Calls.UnarchivedKey | src/redux/features/Calls/callsSlice.ts:130 | the key `unarchived` selects calls not archived |
| Calls.ActiveKey | src/redux/features/Calls/callsSlice.ts:130 | `active` is another name for `unarchived` |
| Calls.ArchiveSplit | src/redux/features/Calls/callsSlice.ts:128-131 | the archived and the unarchived selections together hold every call exactly as often as the list |
| Calls.ArchivedPartition | src/redux/features/Calls/callsSlice.ts:128-131 | `archived` and `unarchived` are disjoint order-preserving views that partition `backupCalls`; `active` equals `unarchived` |
| Calls.IndexOfId | src/redux/features/Calls/callsSlice.ts:155 | `findIndex` by id: -1 exactly when no call has the id, otherwise the first position holding it |
| Calls.Splice | src/redux/features/Calls/callsSlice.ts:152-160 | the length is kept; an absent id changes nothing; otherwise only the first call with the id is replaced |
| Calls.SpliceIdempotent | src/redux/features/Calls/callsSlice.ts:152-160 | applying the same update twice is applying it once |
| Calls.SpliceUnique | src/redux/features/Calls/callsSlice.ts:152-160 | with unique ids, ids stay unique and a present id ends up held by exactly one call, the update |
| Calls.SplicePreservesSubsequence | src/redux/features/Calls/callsSlice.ts:152-160 | splicing the same update into both lists keeps the view an order-preserving selection of a list with unique ids |
| Calls.ArchivedCallLeavesActiveView | src/redux/features/Calls/callsSlice.ts:193-201 | after an archived snapshot is spliced in, the recomputed `unarchived` view no longer shows that call |
| Calls.SplicedViewIsNotRefiltered | src/redux/features/Calls/callsSlice.ts:193-201 | the spliced `unarchived` view keeps a call that the update has just archived |
| Calls.FindIndex | src/redux/features/Calls/callsSlice.ts:155 | the loop over the array finds the first call with the id, or -1 when there is none |
| Calls.Replace | src/redux/features/Calls/callsSlice.ts:154-156 | the in-place write leaves the array equal to the splice of its old contents |
| Calls.FetchQuery | src/redux/features/Calls/callsSlice.ts:85-88 | page 1 and ten per page by default; a given page size is the limit; no page means offset 0 |
| Calls.ConsecutivePagesAdjoin | src/redux/features/Calls/callsSlice.ts:85-88 | page 1 starts at offset 0 and consecutive pages request adjacent windows; no arguments request offset 0, limit 10 |
| Calls.Normalise | src/redux/features/Calls/callsSlice.ts:90-101 | the list comes from `nodes`, else `data`, else is empty; the count defaults to the list's length; only an explicit true means there is a next page |
| Calls.ArchiveRejectionMessage | src/redux/features/Calls/callsSlice.ts:74-76 | the archive request always rejects with a message, so the reducer's fallback text shows only when the server or the error itself says exactly that; with no message the text is "Failed to archive call" |
| Calls.CallStore.constructor | src/redux/features/Calls/callsSlice.ts:108-117 | the initial state: empty lists, idle, page 1 of 10, no count, no next page |
| Calls.CallStore.FilterCalls | src/redux/features/Calls/callsSlice.ts:123-135 | the view becomes the selection for the key; `backupCalls` and every scalar field are untouched |
| Calls.CallStore.SetPage | src/redux/features/Calls/callsSlice.ts:136-138 | only the page changes |
| Calls.CallStore.SetPerPage | src/redux/features/Calls/callsSlice.ts:139-141 | only the page size changes |
| Calls.CallStore.ClearCalls | src/redux/features/Calls/callsSlice.ts:142-150 | both lists empty, count 0, no next page, page 1, idle, no error; page size kept |
| Calls.CallStore.ApplyCallUpdate | src/redux/features/Calls/callsSlice.ts:152-160 | both lists are spliced with the update; a consistent view over unique ids stays consistent |
| Calls.CallStore.FetchPending | src/redux/features/Calls/callsSlice.ts:164-167 | loading with no error; lists and metadata kept |
| Calls.CallStore.FetchFulfilled | src/redux/features/Calls/callsSlice.ts:168-174 | both lists become the page's calls, with its count and next-page flag; succeeded |
| Calls.CallStore.FetchRejected | src/redux/features/Calls/callsSlice.ts:175-178 | failed with the payload or "Failed to load calls"; the lists are kept |
| Calls.CallStore.AddNoteFulfilled | src/redux/features/Calls/callsSlice.ts:180-188 | both lists spliced with the server's snapshot; error cleared; nothing else changes |
| Calls.CallStore.AddNoteRejected | src/redux/features/Calls/callsSlice.ts:189-191 | only the error changes, to the payload or "Failed to add note" |
| Calls.CallStore.ArchiveFulfilled | src/redux/features/Calls/callsSlice.ts:193-201 | both lists spliced with the server's snapshot; error cleared; nothing else changes |
| Calls.CallStore.ArchiveRejected | src/redux/features/Calls/callsSlice.ts:202-204 | only the error changes, to the payload or "Failed to archive/unarchive" |
| Tickets.HasTicketRefuses | src/utils/auth.ts:13-21 | absent, empty and "false" are not tickets; every other string is |
| Tickets.SessionStore.SetTicket | src/utils/auth.ts:23-32 | both branches store the value under `ACCESS_TOKEN`, so a later read returns it |
| Tickets.SessionStore.GetTicket | src/utils/auth.ts:3-7 | nothing outside a browser, otherwise the stored value |
| Tickets.SessionStore.DeleteTicket | src/utils/auth.ts:9-11 | the key is removed, so a later read finds nothing |
| Auth.ExpiresAt | src/redux/features/Auth/authSlice.ts:94-95 | a token expires `expires_in` seconds after `now`, or nine minutes after when none is sent |
| Auth.StartRefresh | src/redux/features/Auth/authSlice.ts:56-57 | without a non-empty refresh token the request rejects with "No refresh token" and sends nothing; otherwise it sends the stored token |
| Auth.AuthStore.constructor | src/redux/features/Auth/authSlice.ts:70-76 | idle, no error, no tokens |
| Auth.AuthStore.ClearAuth | src/redux/features/Auth/authSlice.ts:82-89 | all tokens dropped, idle, no error, and an empty ticket stored |
| Auth.AuthStore.SetAuth | src/redux/features/Auth/authSlice.ts:90-99 | the response's tokens and expiry are taken, succeeded, error cleared, ticket stored |
| Auth.AuthStore.LogInPending | src/redux/features/Auth/authSlice.ts:103-106 | loading, no error, tokens untouched |
| Auth.AuthStore.LogInFulfilled | src/redux/features/Auth/authSlice.ts:107-115 | as SetAuth, except that the error is left as it was |
| Auth.AuthStore.LogInRejected | src/redux/features/Auth/authSlice.ts:116-122 | failed with the payload or "Login failed"; all tokens dropped |
| Auth.AuthStore.RefreshFulfilled | src/redux/features/Auth/authSlice.ts:125-133 | new access token and expiry; the refresh token is replaced only by a non-empty one; error cleared; status untouched |
| Auth.AuthStore.RefreshRejected | src/redux/features/Auth/authSlice.ts:134-140 | access token and expiry dropped, refresh token and status kept, error is the payload or "Session expired" |
| TokenRefresh.Delay | src/components/custom/RefreshToken/index.tsx:19-21 | the delay is the larger of the time to ten seconds before expiry and five seconds |
| TokenRefresh.Schedule | src/components/custom/RefreshToken/index.tsx:16-28 | a timer is armed exactly when the session is live; it fires five seconds from now or ten seconds before expiry, whichever is later |
| TokenRefresh.DelayExamples | src/components/custom/RefreshToken/RefreshToken.test.jsx:45-72 | a minute left gives 50 s; nine seconds left gives the 5 s minimum |
| TokenRefresh.TimerFiresInsideFocusWindow | src/components/custom/RefreshToken/index.tsx:19-36 | when the armed timer fires, the focus rule would refresh too |
| TokenRefresh.RefreshPrecedesExpiry | src/components/custom/RefreshToken/index.tsx:19-21 | a fresh token is refreshed before it expires exactly when it lives longer than 5 s; the default lifetime refreshes after 530 s |
| TokenRefresh.TokenRefresher.Mount | src/components/custom/RefreshToken/index.tsx:16-28 | mounting arms the scheduled timer and has dispatched nothing |
| TokenRefresh.TokenRefresher.Render | src/components/custom/RefreshToken/index.tsx:16-28 | changed session values clear the old timer and arm the new schedule; unchanged ones keep the timer |
| TokenRefresh.TokenRefresher.Elapse | src/components/custom/RefreshToken/index.tsx:23-25 | a due timer fires once, dispatches one refresh and is spent |
| TokenRefresh.TokenRefresher.Focus | src/components/custom/RefreshToken/index.tsx:31-37 | focus refreshes exactly when the session is live and inside the ten-second window |
| Duration.ToMinutesSeconds | src/utils/helper.ts:1-6 | minutes·60 + seconds is the input clamped at zero, with seconds below 60 |
| Duration.Unit | src/utils/helper.ts:10-11 | the unit is singular exactly for one |
| Duration.FormatRoundTrip | src/utils/helper.ts:8-13 | the rendered text reads back as the clamped duration, each unit word agreeing with its count |
| Duration.FormatOneMinute | src/utils/helper.ts:12 | 60 renders as "1 minute 0 seconds" |
| Duration.FormatNegative | src/utils/helper.ts:2 | a negative duration renders as "0 minutes 0 seconds" |
| CallsPage.CeilDiv | src/app/calls/page.tsx:95 | the ceiling of the quotient |
| CallsPage.TotalPages | src/app/calls/page.tsx:95 | at least one page; with results, the fewest pages that hold them all |
| CallsPage.PageRangeBounds | src/app/calls/page.tsx:95-97 | on an offered page, 1 ≤ start ≤ end ≤ total, at most a page long, ending at the total exactly on the last page |
| CallsPage.EveryResultOnOnePage | src/app/calls/page.tsx:95-97 | each result lies on exactly one offered page |
| CallsPage.PagingExample | src/app/calls/page.tsx:95-97 | 42 results at 10 a page: 5 pages, the last showing 41–42 |
| CallsPage.FetchedWindowIsShownRange | src/redux/features/Calls/callsSlice.ts:85-88 | the window a page fetches starts right before the first result its range line shows and holds the last one; the limit is the page size |
| CallsPage.ShowPaginationIff | src/app/calls/page.tsx:233 | the pager shows exactly for the `all` filter with more results than a page |
| CallsPage.SafeNotes | src/app/calls/page.tsx:58-64 | one note per kept note, same content, existing ids and times kept, missing ones filled |
| CallsPage.SafeNotesSelection | src/app/calls/page.tsx:58-59 | the kept notes are, in order, exactly the notes with non-blank content |
| CallsPage.SafeNotesIdempotent | src/app/calls/page.tsx:58-64 | sanitising sanitised notes changes nothing |
| CallsPage.NotesFor | src/app/calls/page.tsx:66-75 | the dialog data: the call's id and link, its readable duration and its sanitised notes |
| CallsPage.CallsView.constructor | src/app/calls/page.tsx:46-55 | dialogs closed, nothing selected, filter `all` |
| CallsPage.CallsView.OpenNotes | src/app/calls/page.tsx:57-77 | the row's dialog data is selected and the dialog opens |
| CallsPage.CallsView.HandleSave | src/app/calls/page.tsx:85-89 | nothing is sent without a selected call; otherwise the note is sent for it and the dialog closes |
| CallsPage.CallsView.ChangeFilter | src/app/calls/page.tsx:111-115 | the choice is kept and the store's view becomes its selection |
| CallsPage.CallsView.ChangePage | src/app/calls/page.tsx:239 | the store moves to the chosen page, nothing else changes |
| CallsPage.CallsView.AskArchive | src/app/calls/page.tsx:79-83 | the call is remembered and the confirmation opens |
| CallsPage.CallsView.CancelConfirm | src/app/calls/page.tsx:257-260 | the confirmation closes and forgets the call |
| CallsPage.CallsView.ConfirmArchive | src/app/calls/page.tsx:261-265 | without a selected id nothing happens; otherwise the dialog shows it is confirming and the request for that call and direction is sent, the dialog staying open |
| CallsPage.CallsView.ArchiveSettled | src/app/calls/page.tsx:265-271 | once the request settles, success or failure, the dialog closes, forgets the call and stops confirming |
| Login.EmailOkIffPattern | src/app/login/page.tsx:20-22 | the direct test accepts exactly the strings the email pattern matches |
| Login.EmailExamples | src/app/login/page.tsx:20-22 | "a@b.co" matches, "a@bco" does not |
| Login.ValidateMeaning | src/app/login/page.tsx:39-51 | each field's error, both directions: blank is required; a bad email is invalid; a short untrimmed password is too short |
| Login.ValidateIndependent | src/app/login/page.tsx:39-51 | one field's error never depends on the other field |
| Login.SentIsValid | src/app/login/page.tsx:69-73 | a request is only sent with a well-formed email and a long enough password |
| Login.LoginForm.constructor | src/app/login/page.tsx:29-37 | empty values, nothing touched, no errors |
| Login.LoginForm.Change | src/app/login/page.tsx:53-60 | the value is stored; errors are recomputed only when that field is touched |
| Login.LoginForm.Blur | src/app/login/page.tsx:62-67 | the field is touched and the errors recomputed |
| Login.LoginForm.Submit | src/app/login/page.tsx:69-73 | both fields touched, errors recomputed, and credentials sent exactly when there is no error |
| AddNotes.LabelCase | src/components/custom/AddNotes/index.tsx:53-54 | "voice mail" becomes "Voice Mail"; anything else only has its first character upper-cased |
| AddNotes.LabelCaseIdempotent | src/components/custom/AddNotes/index.tsx:53-54 | labelling a label changes nothing |
| AddNotes.LabelCaseExamples | src/components/custom/AddNotes/AddNotes.test.jsx:63 | "missed" becomes "Missed" |
| AddNotes.PlusPrefixMeaning | src/components/custom/AddNotes/index.tsx:103 | a number starting with '+' shows as is, any other gets a '+'; showing twice is showing once |
| AddNotes.InsertNewest | src/components/custom/AddNotes/index.tsx:73-75 | one insertion step extends the newest-first prefix and keeps the same notes |
| AddNotes.SortNewestFirst | src/components/custom/AddNotes/index.tsx:73-75 | the result is newest first and a permutation of the notes |
| AddNotes.NoteEditor.constructor | src/components/custom/AddNotes/index.tsx:43-44 | the default note, untouched |
| AddNotes.NoteEditor.Reset | src/components/custom/AddNotes/index.tsx:46-49 | back to the default note, untouched, no error shown |
| AddNotes.NoteEditor.Change | src/components/custom/AddNotes/index.tsx:140 | only the note changes |
| AddNotes.NoteEditor.Blur | src/components/custom/AddNotes/index.tsx:141 | touched; the error shows exactly for a blank note |
| AddNotes.NoteEditor.Save | src/components/custom/AddNotes/index.tsx:60-64 | touched; the trimmed note is handed on exactly when it is not blank, and the error shows exactly when nothing was |
| AddNotes.SavedNoteIsClean | src/components/custom/AddNotes/index.tsx:56-63 | what is handed on is non-blank and already trimmed |
| AddNotes.SaveEnabledIffSavable | src/components/custom/AddNotes/index.tsx:155 | Save is enabled exactly when not saving and the note is not blank |
| RouteGate.Middleware | src/middleware.tsx:5-33 | the handler's answer is the gate's decision, the expired cookie surviving only when the request passes |
| RouteGate.RouteCases | src/middleware.tsx:13-32 | no ticket: redirect to /login, or pass with the cookie expired on /login; a ticket: redirect /login to /calls, pass elsewhere |
| RouteGate.NoSelfRedirect | src/middleware.tsx:21-29 | no page is redirected to itself |
| RouteGate.RedirectSettles | src/middleware.tsx:21-30 | the redirect target is in scope and lets the same browser through |
| RouteGate.ExpiresOnlyOnLogin | src/middleware.tsx:13-25 | the cookie is expired exactly on a ticketless visit to /login |
| RouteGate.Gate | src/middleware.tsx:35-37 | paths out of scope pass untouched; paths in scope get the gate's decision |
| RouteGate.SignedOutSeesNoCalls | src/middleware.tsx:13-23 | a signed-out browser is sent from every gated page but /login to /login |
| RouteGate.GateAndTicketDisagreeOnFalse | src/middleware.tsx:13 | the ticket "false" passes the gate though `hasTicket` refuses it |

## Left out

- HTTP transport, the axios instance and its interceptors, and toasts. A request is modelled by what it sends; its outcome is the payload handed to the fulfilled or rejected reducer.
- The realtime subscription. It is a foreign library; only the reducer it dispatches, `applyCallUpdate`, is modelled.
- Real timers, window listeners and `Date.now()`. The clock is `now`, and the timer is one armed slot driven by `TokenRefresh.TokenRefresher.Elapse`.
- `crypto.randomUUID`, `new Date(...)` and `toLocaleString`. Generated ids are a parameter, and times are integers. An empty `created_at` string is modelled as an absent time.
- JavaScript number semantics: `NaN`, `Infinity`, fractional seconds and float division. Durations, counts and times are integers.
- Duration.ToMinutesSeconds: does not model `Math.floor` of a fractional input, because durations are integers here.
- CallsPage.TotalPages: requires a page size of at least one, because a zero or negative size gives `Infinity` or `NaN` pages in the source.
- Case mapping beyond ASCII. `toLowerCase` and `toUpperCase` are modelled on A–Z only, so keys and labels with other letters are outside the model.
- String lengths count code points, not UTF-16 code units. This matters for the password length only when the password holds characters outside the Basic Multilingual Plane.
- Out-of-order completion of concurrent requests. Reducers are applied one at a time, in the order their actions arrive.
- The fetch effect that runs when the page or page size changes. Its arguments are `Calls.FetchQuery`.
- `CallItem` fields the reducers never read are carried through unexamined. An absent `call_type` is modelled as "", and an absent `is_archived` as false, which is how the reducers read them.
- The texts of the language constants. Error kinds are values, and `Login.Message` maps them to their texts.
- Tickets.SessionStore.SetTicket and Tickets.SessionStore.DeleteTicket: require a browser, because outside one the source throws on the missing `sessionStorage`.
- AddNotes.SortNewestFirst: does not state stability for equal times. The insertion step only passes strictly newer notes, but the lemma is not written. An invalid date, which gives `NaN` in the comparator, is outside the model because times are integers.
- Rendering and styling, the dialog components, the date format of the created column, and the row class map.
- The header's logout button. It calls the action creator without dispatching it, so it changes no state.
