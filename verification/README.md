# radio.charles.systems — verified model of the play poller and the token lifecycle

The service polls a music provider's "currently playing" endpoint once a second
and appends each new play to a history table. It also keeps the OAuth tokens it
needs for the provider's API. This project models the two state machines in
`app.py`:

- **The play-history poll** (`fetch_and_store_current_track`), in module
  `PlayHistory` (`play_history.dfy`). The table is the `seq<Record>` field of
  class `History`. Its `Poll` method takes the provider's reply and the clock as
  inputs. `Poll` is proved equal to the pure step function `Next`, and the dedup
  rule is stated as lemmas about `Next`. The rule: a report is dropped when it
  names the same track and artists as the newest stored play and that play has
  not yet ended; in every other case exactly one record stamped `now` is
  appended.
- **The artist string** (the `", ".join(...)` expression), in module `Artists`
  (`artists.dfy`). `Join` joins the names in order. Its inverse `Split` recovers
  a non-empty list of names when no name holds a comma, and `Join(Split(s)) == s`
  holds for every string. The join is not injective: no artists and one artist
  named "" give the same string, as do one artist "X, Y" and the two artists "X" and "Y".
- **The token lifecycle** (`refresh_access_token` and the token assignments of
  `callback`), in module `TokenLifecycle` (`token_lifecycle.dfy`). The three
  globals are fields of class `TokenStore`. Its `Refresh` and `Callback` methods
  are proved equal to the pure functions `AfterRefresh` and `AfterCallback`.
  The lifecycle properties are lemmas about those functions.

Time is an integer number of milliseconds. Track durations are in milliseconds.
The token endpoint's `expires_in` is in seconds, as in the code
(`timedelta(seconds=expires_in)`), so a new expiry is `now + 1000 * expires_in`.

Python exceptions that abort an operation become outcomes:

- A currently-playing reply with no JSON body is `NoBody`. This is the 204 the
  provider sends when nothing is playing, and decoding it raises.
- A playing reply without `item` or `progress_ms` also raises.

Both give `Failed`, and the log is untouched. A 200 token reply without
`expires_in` raises after the access token (and, in the callback, the refresh
token) was already assigned. The model keeps that partial update. A 200 token
reply that has `expires_in` but lacks a token performs all of the step's
assignments (the refresh step never touches the refresh token). The step
then raises when it writes the missing token to the `.env` file (app.py:156,
app.py:129-130). The outcome is `Raised` and the state keeps those assignments.

Two points about the code:

- The refresh step never reads a rotated refresh token from the reply
  (app.py:150-153). `AfterRefresh` therefore keeps the refresh token whatever
  the reply holds.
- The poll does not refresh the token before its request, unlike the web
  handlers (app.py:45-49).

## Model

| member | source | states |
|---|---|---|
| `Artists.Join` | app.py:57 | The joined artist string starts with the first artist's name; with `SplitJoin` and `JoinSplit` it is the ", "-join of the names in order. |
| `Artists.SplitJoin` | app.py:57 | The stored artist string gives back the provider's names, in order, when the list is non-empty and no name contains a comma. |
| `Artists.JoinSplit` | app.py:57 | Joining the ", "-pieces of any string gives the string back, so the join loses nothing. |
| `Artists.JoinCollisions` | app.py:57 | No artists and one artist named "" store the same string, and splitting it gives `[""]`, not the empty list; and so do ["X, Y"] and ["X", "Y"]; the non-empty, comma-free hypotheses of `SplitJoin` are needed. |
| `Artists.JoinSnoc` | app.py:57 | Each further artist adds ", " and its name at the end, as the join accumulates left to right. |
| `PlayHistory.LatestIndex` | app.py:63 | The row the poll compares with has the greatest timestamp of the table; ties go to the most recently inserted row. |
| `PlayHistory.ShouldInsert` | app.py:65-77 | The dedup decision: insert unless the newest row has the same name and joined artists and now is before its timestamp plus duration; `SuppressedIff` states both directions of it for a poll. |
| `PlayHistory.Outcome` | app.py:50-82 | The control flow of one poll: no JSON body or a missing `item`/`progress_ms` fails, a false or missing `is_playing` returns, otherwise the dedup decision; `NotPlayingKeepsLog` states the cases that write nothing and `SuppressedIff` the rest. |
| `PlayHistory.Next` | app.py:61-82 | One poll leaves the table as it was or appends exactly one row, keeping every existing row in place. |
| `PlayHistory.History.constructor` | app.py:27-29 | The history table starts as whatever is already stored. |
| `PlayHistory.History.Poll` | app.py:45-82 | The poll's outcome and the new table are those of `Outcome` and `Next` on the old table, the reply and the clock. |
| `PlayHistory.NotPlayingKeepsLog` | app.py:50-59 | A reply with `is_playing` false or missing, with no JSON body, or without `item` or `progress_ms`, writes nothing. |
| `PlayHistory.SuppressedIff` | app.py:63-82 | A report is dropped if and only if the table is non-empty, name and joined artists equal the newest row's, and now is before that row's timestamp plus duration; otherwise the report's row stamped now is appended. |
| `PlayHistory.ChangedTrackInserts` | app.py:65-82 | With an empty table, or a name or artist differing from the newest row, the row (name, joined artists, now, duration) is appended whatever the time. |
| `PlayHistory.ReplayAfterWindowInserts` | app.py:71-82 | The same track reported at or after the newest row's end is appended again as a replay. |
| `PlayHistory.StoredArtistIsJoin` | app.py:57 | An inserted row's artist splits back into the reply's artist names, in order, when that list is non-empty and comma-free. |
| `PlayHistory.AppendedBecomesLatest` | app.py:63 | A row stamped no earlier than all stored rows becomes the newest row. |
| `PlayHistory.RepeatsSuppressed` | app.py:63-77 | While the newest row is in its window, any run of polls reporting its name and joined artist string writes nothing, whatever their duration or artist list. |
| `PlayHistory.RepeatedReportsStoreOnce` | app.py:61-82 | A stored report followed by any number of reports with the same name and joined artist string before its end leaves exactly one new row. |
| `PlayHistory.JoinedArtistsCompared` | app.py:57-77 | After a stored report of "A" by one artist "X, Y", a report of "A" by "X" and "Y" with another duration is dropped. |
| `PlayHistory.RunKeepsPrefix` | app.py:61-82 | Over any run of polls the existing rows stay in place and at most one row per poll is added. |
| `PlayHistory.ReplayScenario` | app.py:45-82 | A 200 s track stored at 0 is not stored again at 1 s and is stored again at 201 s. |
| `TokenLifecycle.RefreshDue` | app.py:138 | A refresh is attempted when forced or once now has reached the stored expiry; `NotDueLeavesState` and `ForcedRefreshAttempted` state both sides. |
| `TokenLifecycle.RefreshOutcomeOf` | app.py:138-161 | Not due, rejected on a non-200 reply, raised on a 200 reply without JSON body, `expires_in` or `access_token`, refreshed otherwise; `NotDueLeavesState`, `RejectedRefreshLeavesState`, `RefreshWithoutBodyRaises`, `RefreshWithoutExpiryIsPartial`, `RefreshWithoutAccessTokenRaises` and `SuccessfulRefresh` state the six cases. |
| `TokenLifecycle.AfterRefresh` | app.py:136-161 | The refresh step never changes the refresh token, whatever the reply holds. |
| `TokenLifecycle.TokenStore.constructor` | app.py:37-39 | The token globals start from the loaded values. |
| `TokenLifecycle.TokenStore.Refresh` | app.py:136-161 | The step's outcome and the new token state are those of `RefreshOutcomeOf` and `AfterRefresh` on the old state. |
| `TokenLifecycle.TokenStore.Callback` | app.py:119-130 | The callback's outcome and the new token state are those of `CallbackOutcomeOf` and `AfterCallback` on the old state. |
| `TokenLifecycle.NotDueLeavesState` | app.py:138 | Unforced, before expiry: no refresh is attempted and no field changes. |
| `TokenLifecycle.ForcedRefreshAttempted` | app.py:138 | A forced refresh is always attempted, and a non-200 reply to it is a rejection. |
| `TokenLifecycle.RejectedRefreshLeavesState` | app.py:148-161 | A non-200 reply leaves access token, refresh token and expiry unchanged, and a due call answered so is `Rejected`, forced or not. |
| `TokenLifecycle.RefreshWithoutBodyRaises` | app.py:148-150 | A due 200 reply whose body is not JSON raises before any assignment and leaves the state unchanged. |
| `TokenLifecycle.SuccessfulRefresh` | app.py:149-157 | A due refresh answered 200 with both fields is `Refreshed`: it takes the new access token, sets expiry to now + 1000 * expires_in, and keeps the old refresh token. |
| `TokenLifecycle.RefreshWithoutAccessTokenRaises` | app.py:150-156 | A due 200 reply with `expires_in` but no `access_token` clears the access token, sets the new expiry, and raises. |
| `TokenLifecycle.RefreshWithoutExpiryIsPartial` | app.py:150-153 | A 200 reply without `expires_in` overwrites the access token and raises before the expiry is set. |
| `TokenLifecycle.FreshTokenNotRefreshedAgain` | app.py:138-153 | After a successful refresh, unforced calls before the new expiry do nothing. |
| `TokenLifecycle.FailedRefreshRetried` | app.py:138-161 | After a rejected unforced refresh, every later unforced call attempts again. |
| `TokenLifecycle.RefreshTokenSurvivesRefreshes` | app.py:136-161 | No sequence of refresh calls changes the refresh token. |
| `TokenLifecycle.FailedRefreshesLeaveState` | app.py:148-161 | A sequence of refreshes all answered non-200 leaves the whole token state unchanged. |
| `TokenLifecycle.CallbackOutcomeOf` | app.py:119-130 | Rejected on a non-200 reply, raised on a 200 reply without JSON body, `expires_in`, `access_token` or `refresh_token`, stored otherwise. |
| `TokenLifecycle.AfterCallback` | app.py:119-126 | The token state after the callback; `CallbackStoresAll`, `CallbackWithoutTokenRaises`, `CallbackWithoutExpiryIsPartial`, `CallbackWithoutBodyRaises` and `RejectedCallbackLeavesState` state its five cases. |
| `TokenLifecycle.CallbackStoresAll` | app.py:122-130 | A 200 callback with both tokens and `expires_in` is `Stored` and sets access token, refresh token and expiry = now + 1000 * expires_in from the reply. |
| `TokenLifecycle.CallbackWithoutTokenRaises` | app.py:122-130 | A 200 callback with `expires_in` but a missing token sets all three fields from the reply and raises. |
| `TokenLifecycle.CallbackWithoutExpiryIsPartial` | app.py:122-126 | A 200 callback without `expires_in` stores both tokens and raises before the expiry is set. |
| `TokenLifecycle.CallbackWithoutBodyRaises` | app.py:118-122 | A 200 callback whose body is not JSON raises before any assignment and leaves the state unchanged. |
| `TokenLifecycle.RejectedCallbackLeavesState` | app.py:119-120 | A non-200 callback changes nothing. |
| `TokenLifecycle.CallbackRefreshTokenPersists` | app.py:122-153 | The refresh token stored by a 200 callback with a JSON body, even one that then raises, survives every later sequence of refreshes. |

## Left out

- Flask routes, redirects, JSON and template rendering (app.py:88-260): web plumbing. The refresh calls that the handlers make are covered by `TokenStore.Refresh`.
- HTTP requests and the Basic-auth header built with base64: the replies are inputs to the model. The request the refresh sends is not modelled, only the reply it gets.
- The SQL store and its pagination (`paginate`, `.pages`): the page slicing and page count belong to Flask-SQLAlchemy, which is not part of this model. The table is a sequence in insertion order. The row id is the position in that sequence.
- Reading tokens from and writing them to the `.env` file, and reading config from the environment: file and environment I/O. Only the raise on writing a missing token is modelled, as the `Raised` outcome. The constructor takes the loaded values. The default expiry (the start-up time when no expiry is stored) is not modelled.
- The background scheduler and its 1-second interval: the model runs polls one after another. Overlapping polls are not modelled.
- `strftime` formatting and `datetime` internals: time is integer milliseconds, not microsecond datetimes.
- The login URL construction (app.py:100): string concatenation with nothing to prove.
- PlayHistory.LatestIndex: breaks ties between equal timestamps in favour of the most recently inserted row. SQL leaves that order unspecified.
- PlayHistory.History.Poll: uses one clock reading per poll. The code reads the clock once for the window test and again when the row's default timestamp is filled in.
- TokenLifecycle.TokenStore.Refresh: uses one clock reading for the due test and for the new expiry. The code reads the clock before and after the request.
- Reply fields are modelled with the types the provider documents (strings, a list of names, natural numbers). A reply with fields of other JSON types, which would raise at other points or store other values, is not modelled.
