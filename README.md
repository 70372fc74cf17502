# Internal announcements portal — a verified model of its logic

The portal is a small React front-end. Staff use it to write announcements ("alertas") made of typed, coloured sections. A cloud document store keeps the announcements, and a hosted identity provider signs people in. This project models in Dafny the parts of the front-end that compute something. Each part is proved against its specification.

- **`common.dfy` (`Common`).** An `Option` type and the order-preserving `filter` and `map` of JavaScript arrays, with their membership and subsequence lemmas.
- **`text.dfy` (`Text`).** The string built-ins the code relies on:
  - `trim`, over the ECMAScript whitespace set;
  - `split('\n')` and `join`, with both round trips proved;
  - `includes`, characterised as "occurs at some index";
  - `toLowerCase`, for ASCII and Latin-1.
- **`markup.dfy` (`Markup`).** Each markup rewrite in the portal is a global, non-greedy regular-expression replacement of the shape `OPEN(.*?)CLOSE`. This module models it as an explicit left-to-right scanner `ReplaceAll`. `FindClose` finds the nearest closer and gives up at a line terminator, because `.` does not match one. Proved about the scanner:
  - which closer is taken;
  - that two runs on one line stay two runs;
  - that an opener without a closer stays verbatim;
  - that the rewrite loses nothing: the inverse rewrite restores the text.
- **`alert_service.dfy` (`AlertService`).** Models `src/services/firebaseService.ts`:
  - the record `createAlert` returns, and its 72-hour default expiry;
  - `parseAlertContent`, which rewrites bold, then italics;
  - `createDefaultSection` and its defaults table;
  - the normalising `push` loop of `getActiveAlerts`.
- **`create_alert.dfy` (`CreateAlert`).** Models the announcement form, `src/pages/CreateAlert/CreateAlert.tsx`:
  - the fixed colour policy;
  - the per-line preview markup `parseContent`;
  - the section list, as a class whose edit, add and remove methods keep the list non-empty and every section's colours fixed by its type;
  - the submit-enabled rule;
  - the submit step with its three error messages.
- **`alert_management.dfy` (`AlertManagement`).** Models the list of a user's announcements, `src/components/AlertManagement/index.tsx`:
  - normalisation of fetched records;
  - the newest-first sort, in place on an array;
  - the case-insensitive title search;
  - the three-item preview and its "show more" control;
  - the urgency badge;
  - the local delete.
- **`auth.dfy` (`Auth`).** Models the session layer, `src/contexts/AuthContext.tsx`:
  - the home-made 24-hour token and its expiry check;
  - the state-and-storage transitions of login, logout, refresh, start-up restore and the provider callback. Each is written once as a pure step function. The `AuthProvider` class's methods are proved to perform exactly those steps.
- **`route_guard.dfy` (`RouteGuard`).** Models what a protected route renders, when it asks for a token refresh, and `requireAuth` (`src/hooks/useProtectedRoute.tsx`).

Several facts come from outside the model and are passed in as parameters:
- the clock, as milliseconds since the epoch;
- the identity provider's and the document store's answers, as success or failure values and as the records they return;
- the browser's storage, as two optional fields.

The token's text encoding (`btoa`/`JSON`) is abstracted to its payload, plus a case for text that does not decode.

Behaviour the model records as the code has it:
- After a page reload, suppose storage holds a valid token but no stored user. The provider's sign-in callback then keeps that token in storage but does not copy it into the context's state. The user is signed in but not authenticated until the route guard's refresh issues a new token. That refresh comes too late for the page: the guard has already redirected to the login page (`Auth.SignedInButNotAuthenticated`, `RouteGuard.RefreshOpensPage`).
- The management list's delete passes the signed-in user's uid to the service, not the announcement's id. The service's `deleteAlert` only logs, so only the local list changes (`AlertManagement.AlertList.DeleteAlert`).
- The string `**` on its own is an empty bold run, so the italic-run lemmas require a non-empty run.

## Model

| member | source | states |
|---|---|---|
| `Common.Filter` | src/components/AlertManagement/index.tsx:100-105 | the result is no longer than the input and every kept element satisfies the predicate |
| `Common.FilterMembership` | src/components/AlertManagement/index.tsx:100-105 | an element is in the filtered list iff it is in the input and satisfies the predicate |
| `Common.FilterIsSubsequence` | src/components/AlertManagement/index.tsx:71 | filtering only drops elements; the rest keep their order |
| `Common.FilterMultiplicity` | src/components/AlertManagement/index.tsx:71 | every copy of a kept element is kept and no copy of a dropped one: each element's count in the result is its count in the input, or zero |
| `Common.Map` | src/pages/CreateAlert/CreateAlert.tsx:141-143 | the result has the input's length and holds `f` of each element at the same index |
| `Text.TrimStart` | src/pages/CreateAlert/CreateAlert.tsx:141 | the result is a suffix starting with non-whitespace, and what was cut is all whitespace |
| `Text.TrimEnd` | src/pages/CreateAlert/CreateAlert.tsx:141 | the result is a prefix ending with non-whitespace, and what was cut is all whitespace |
| `Text.Trim` | src/pages/CreateAlert/CreateAlert.tsx:141 | `trim` never lengthens a string, and a non-empty result neither starts nor ends with whitespace |
| `Text.TrimIsSlice` | src/pages/CreateAlert/CreateAlert.tsx:141 | `trim` returns a slice of its input with only whitespace outside it |
| `Text.TrimEmptyIffBlank` | src/pages/CreateAlert/CreateAlert.tsx:536 | a string trims to empty exactly when it is all whitespace |
| `Text.TrimIdempotent` | src/pages/CreateAlert/CreateAlert.tsx:141 | trimming twice is trimming once |
| `Text.TrimTight` | src/pages/CreateAlert/CreateAlert.tsx:141 | a string without whitespace at either end trims to itself |
| `Text.Split` | src/pages/CreateAlert/CreateAlert.tsx:141 | `split('\n')` gives one more piece than there are separators, and no piece contains the separator |
| `Text.JoinSplit` | src/pages/CreateAlert/CreateAlert.tsx:141 | joining the pieces of a split restores the string |
| `Text.SplitJoin` | src/pages/CreateAlert/CreateAlert.tsx:141 | splitting a join of separator-free pieces restores the pieces |
| `Text.Includes` | src/components/AlertManagement/index.tsx:102 | the empty needle is included in every string, and a needle longer than the haystack never is |
| `Text.IncludesAt` | src/components/AlertManagement/index.tsx:102 | `includes` holds iff the needle occurs at some index |
| `Text.Lower` | src/components/AlertManagement/index.tsx:102 | `toLowerCase` keeps the length and lower-cases each character |
| `Text.LowerChar` | src/components/AlertManagement/index.tsx:102 | capitals move 32 code points down, other characters stay, and no capital remains |
| `Text.LowerIdempotent` | src/components/AlertManagement/index.tsx:102 | lower-casing twice is lower-casing once |
| `Markup.FindClose` | src/pages/CreateAlert/CreateAlert.tsx:145-154 | a closer found by the lazy `(.*?)` lies inside the text after the opener |
| `Markup.FindCloseFirst` | src/pages/CreateAlert/CreateAlert.tsx:145-154 | the closer taken is the first one, with no line terminator before it; none is taken only when a line terminator precedes every closer |
| `Markup.ReplaceAll` | src/pages/CreateAlert/CreateAlert.tsx:145-154 | a global `OPEN(.*?)CLOSE` replacement never empties a non-empty line |
| `Markup.ApplyRules` | src/pages/CreateAlert/CreateAlert.tsx:144-154 | a chain of replacements never empties a non-empty line |
| `Markup.NoOpenerUnchanged` | src/pages/CreateAlert/CreateAlert.tsx:145-154 | text where the opener never starts is copied unchanged |
| `Markup.NoMarkerUnchanged` | src/pages/CreateAlert/CreateAlert.tsx:145-154 | text without the opener's first character is unchanged |
| `Markup.PlainPrefix` | src/pages/CreateAlert/CreateAlert.tsx:145-154 | a marker-free prefix is copied and scanning resumes after it |
| `Markup.MatchedRun` | src/pages/CreateAlert/CreateAlert.tsx:145-154 | when `x` contains neither the closer's first character nor a line terminator, `OPEN x CLOSE` followed by anything becomes `BEFORE x AFTER` followed by the rewrite of the rest |
| `Markup.TwoRuns` | src/pages/CreateAlert/CreateAlert.tsx:145-148 | shortest match: two tagged runs on one line become two wrapped runs with the text between them untouched |
| `Markup.UnmatchedOpener` | src/pages/CreateAlert/CreateAlert.tsx:145-148 | an opener with no closer anywhere after it stays verbatim |
| `Markup.NoCloserUnchanged` | src/pages/CreateAlert/CreateAlert.tsx:145-154 | text in which no closer starts past the first opener's length is copied unchanged, whatever openers it holds |
| `Markup.RoundTrip` | src/pages/CreateAlert/CreateAlert.tsx:145-154 | the rewrite is lossless: on text without the tags' first character the inverse rewrite restores the input |
| `Markup.ApplyRulesUnchanged` | src/pages/CreateAlert/CreateAlert.tsx:143-156 | a chain leaves text alone when it has none of the openers' first characters |
| `AlertService.OrElse` | src/services/firebaseService.ts:91-98 | `value \|\| fallback`: the fallback is used exactly when the value is missing or empty |
| `AlertService.DefaultExpiry` | src/services/firebaseService.ts:43-45 | without a chosen date the expiry is exactly 259 200 000 ms after now |
| `AlertService.ExpiresAt` | src/services/firebaseService.ts:43-45 | a present chosen date is the expiry; without one the expiry is 72 hours after now |
| `AlertService.ChosenExpiry` | src/services/firebaseService.ts:43-45 | a non-empty chosen date is the expiry, independent of the clock |
| `AlertService.CreateAlert` | src/services/firebaseService.ts:36-69 | the returned record keeps every caller field and adds the store's id, `createdAt = now`, the computed expiry and `createdBy = userId`; a failed write returns nothing |
| `AlertService.CreatedAlertLifetime` | src/services/firebaseService.ts:43-64 | a created record without a chosen date expires 72 hours after its creation time and names its author |
| `AlertService.ParseAlertContent` | src/services/firebaseService.ts:117-121 | the service markup never empties non-empty content |
| `AlertService.AlertContentWithoutStars` | src/services/firebaseService.ts:117-121 | content without `*` comes back unchanged |
| `AlertService.AlertContentBold` | src/services/firebaseService.ts:117-121 | `**x**` becomes `<strong>x</strong>`, with no italic run inside |
| `AlertService.BoldPass` | src/services/firebaseService.ts:119 | the bold pass alone turns `**x**` into `<strong>x</strong>` |
| `AlertService.AlertContentItalic` | src/services/firebaseService.ts:117-121 | `*x*` with a non-empty `x` becomes `<em>x</em>` |
| `AlertService.ParseStrongSkipsItalic` | src/services/firebaseService.ts:119 | the bold pass leaves a single-star run alone |
| `AlertService.CreateDefaultSection` | src/services/firebaseService.ts:123-174 | type and id kept; content empty; text colour white; `bulletColor` defined, as white, only for `procedure`; a known type takes its background and icon from the defaults table, an unknown one those of `info`; 'title', 'warning', 'procedure', 'important' and 'note' get 'Título Principal', 'Aviso Urgente', 'Procedimento Correto', 'Importante' and 'Observações', and every other type 'Informação' |
| `AlertService.DefaultStyle` | src/services/firebaseService.ts:124-158 | the defaults table has an entry exactly for the six known types, each with white text, and only `procedure` has a bullet colour |
| `AlertService.DefaultTitle` | src/services/firebaseService.ts:163-167 | the fallback title 'Informação' is chosen exactly for the types other than the five named ones |
| `AlertService.NormaliseStored` | src/services/firebaseService.ts:89-99 | each missing field gets its default: sections `[]`, title `''`, urgency 'medium', expiry date null, times now, author 'Sistema' |
| `AlertService.NormalisedHasDefaults` | src/services/firebaseService.ts:91-98 | a normalised record always has an urgency and an author, and never an empty expiry date |
| `AlertService.CollectActiveAlerts` | src/services/firebaseService.ts:74-107 | one normalised record per returned document, in query order; a failed query gives no records |
| `CreateAlert.FindType` | src/pages/CreateAlert/CreateAlert.tsx:119 | `find` returns an entry of the table with the requested id, and returns nothing only when no entry has it |
| `CreateAlert.FindTypeDistinct` | src/pages/CreateAlert/CreateAlert.tsx:119 | in a table whose ids are all different, `find` returns exactly the entry holding the requested id |
| `CreateAlert.SectionTypeIdsDistinct` | src/pages/CreateAlert/CreateAlert.tsx:33-58 | the form's four section types have four different ids |
| `CreateAlert.FixedBackground` | src/pages/CreateAlert/CreateAlert.tsx:86-94 | total; each of warning, procedure and urgent has its own background, and every other type gets white |
| `CreateAlert.FixedText` | src/pages/CreateAlert/CreateAlert.tsx:96-102 | total; 'urgent' gets the red text and 'note' the gray text, and every other type gets black |
| `CreateAlert.ColoursFixed` | src/pages/CreateAlert/CreateAlert.tsx:104-116 | the colour policy a section must follow: its background and text colour are the fixed ones of its type |
| `CreateAlert.WithFixedColours` | src/pages/CreateAlert/CreateAlert.tsx:106-111 | the edited section keeps its own fields but gets its type's fixed colours and a black bullet, whatever the editor supplied |
| `CreateAlert.NewSection` | src/pages/CreateAlert/CreateAlert.tsx:118-131 | an added section has empty content, the fixed colours, a black bullet, and the type's title and icon, or 'Nova Seção' and '📝' for an unknown type |
| `CreateAlert.RemoveAt` | src/pages/CreateAlert/CreateAlert.tsx:135 | removes exactly position `index` and shifts the rest; an index outside the list changes nothing |
| `CreateAlert.RemoveAtSubsequence` | src/pages/CreateAlert/CreateAlert.tsx:135 | removal keeps every other section in order |
| `CreateAlert.ParseLine` | src/pages/CreateAlert/CreateAlert.tsx:143-156 | marking up a non-empty line never empties it |
| `CreateAlert.TrimThenFilter` | src/pages/CreateAlert/CreateAlert.tsx:141 | trimming then dropping empty lines equals dropping blank lines then trimming |
| `CreateAlert.ParseContent` | src/pages/CreateAlert/CreateAlert.tsx:140-158 | the preview never has more lines than the `\n`-separated input, and none of its lines is empty |
| `CreateAlert.ParseContentLines` | src/pages/CreateAlert/CreateAlert.tsx:140-158 | one output per non-blank input line, in order, each the markup of the trimmed line |
| `CreateAlert.PlainLineUnchanged` | src/pages/CreateAlert/CreateAlert.tsx:143-156 | a line with no `*`, `~` or backtick, in which none of the four colour openers `[vermelho]`, `[verde]`, `[amarelo]`, `[cinza]` occurs, comes back unchanged; other brackets are allowed |
| `CreateAlert.BracketKept` | src/pages/CreateAlert/CreateAlert.tsx:145-148 | `ver [1]`, whose bracket opens no colour tag, comes back unchanged |
| `CreateAlert.PlainContentUnchanged` | src/pages/CreateAlert/CreateAlert.tsx:140-158 | content that is one markup-free line with no surrounding whitespace previews as exactly that line |
| `CreateAlert.ParseLineBold` | src/pages/CreateAlert/CreateAlert.tsx:151-152 | bold runs before italics: `**x**` becomes `<strong>x</strong>`, not nested emphasis |
| `CreateAlert.ParseLineTwoReds` | src/pages/CreateAlert/CreateAlert.tsx:145 | two `[vermelho]` runs on one line become two red spans, with the text between them outside both |
| `CreateAlert.ParseLineUnclosedRed` | src/pages/CreateAlert/CreateAlert.tsx:145-148 | a `[vermelho]` opener followed by text without markup or line breaks survives all eight rewrites verbatim |
| `CreateAlert.ErrorText` | src/pages/CreateAlert/CreateAlert.tsx:205-214 | permission denial, a message mentioning 'não autenticado', and any other error each give their own message |
| `CreateAlert.SignedOutMessage` | src/pages/CreateAlert/CreateAlert.tsx:170-211 | submitting while signed out shows the log-in message |
| `CreateAlert.SubmitDisabled` | src/pages/CreateAlert/CreateAlert.tsx:536 | the button is disabled while submitting, when the title trims to nothing, or when every section's content does |
| `CreateAlert.SubmitEnabledIff` | src/pages/CreateAlert/CreateAlert.tsx:536 | the submit button is enabled exactly when not submitting, the title has a non-whitespace character and some section's content has one |
| `CreateAlert.EnabledSubmitNeedsConfirm` | src/pages/CreateAlert/CreateAlert.tsx:219-227 | whenever the form could be submitted, cancelling it asks for confirmation |
| `CreateAlert.InitialSectionsFixed` | src/pages/CreateAlert/CreateAlert.tsx:60-80 | the starting sections already follow the colour policy |
| `CreateAlert.AlertForm.constructor` | src/pages/CreateAlert/CreateAlert.tsx:12-83 | the form starts with the two initial sections, default urgency 'medium', active, the default thanks text, and satisfies its invariant |
| `CreateAlert.AlertForm.SectionChange` | src/pages/CreateAlert/CreateAlert.tsx:104-116 | only position `index` changes, to the edited section under the fixed colours; the invariant is kept |
| `CreateAlert.AlertForm.AddSection` | src/pages/CreateAlert/CreateAlert.tsx:118-131 | exactly one new section is appended at the end; the invariant is kept |
| `CreateAlert.AlertForm.RemoveSection` | src/pages/CreateAlert/CreateAlert.tsx:133-138 | removes position `index` when there is more than one section, else changes nothing, so the list never empties |
| `CreateAlert.AlertForm.Input` | src/pages/CreateAlert/CreateAlert.tsx:174-181 | the record sent carries the form's fields, with an empty date sent as null |
| `CreateAlert.AlertForm.Submit` | src/pages/CreateAlert/CreateAlert.tsx:160-218 | signed out: nothing is sent and the log-in message is shown; signed in: the form's record is sent, then the success message or the error's message; never left submitting |
| `AlertManagement.Normalise` | src/components/AlertManagement/index.tsx:43-49 | missing title becomes 'Sem título', missing urgency 'medium', missing time now; active unless stored as exactly false |
| `AlertManagement.NormalisedRow` | src/components/AlertManagement/index.tsx:43-49 | a normalised row always has a title and an urgency, and a row with no stored flag is active |
| `AlertManagement.SortNewestFirst` | src/components/AlertManagement/index.tsx:51 | the array ends newest first and is a permutation of what it held |
| `AlertManagement.Insert` | src/components/AlertManagement/index.tsx:51 | one insertion step extends the newest-first prefix by one element, permuting only |
| `AlertManagement.Swap` | src/components/AlertManagement/index.tsx:51 | exchanges exactly two rows and keeps the same rows |
| `AlertManagement.MatchesTerm` | src/components/AlertManagement/index.tsx:102 | a row matches when its lower-cased title includes the lower-cased term |
| `AlertManagement.FilteredAlerts` | src/components/AlertManagement/index.tsx:100-105 | an empty search term keeps every row; the search never adds rows |
| `AlertManagement.FilteredExactly` | src/components/AlertManagement/index.tsx:100-105 | with a search term, a row is kept iff its lower-cased title contains the lower-cased term, and kept rows stay in order |
| `AlertManagement.FilterIgnoresTermCase` | src/components/AlertManagement/index.tsx:102 | lower-casing the search term does not change the result |
| `AlertManagement.FilterKeepsLiteralMatch` | src/components/AlertManagement/index.tsx:100-105 | a title that literally contains the term is always kept |
| `AlertManagement.DisplayAlerts` | src/components/AlertManagement/index.tsx:107 | the shown rows are a prefix of the filtered rows, all of them when `showAll`, otherwise min(3, count) |
| `AlertManagement.ShowMoreControl` | src/components/AlertManagement/index.tsx:231-237 | the control appears only with more than three rows, and then reports count − 3 remaining unless `showAll` |
| `AlertManagement.ShownPlusRemaining` | src/components/AlertManagement/index.tsx:107 | rows shown plus rows reported remaining equals the filtered count |
| `AlertManagement.HiddenShowsAll` | src/components/AlertManagement/index.tsx:231 | when the control is hidden the collapsed list already shows every filtered row |
| `AlertManagement.UrgencyBadge` | src/components/AlertManagement/index.tsx:82-90 | the medium badge is shown exactly for 'medium' and for every unknown urgency |
| `AlertManagement.WithoutId` | src/components/AlertManagement/index.tsx:71 | no row with the deleted id remains |
| `AlertManagement.WithoutIdKeepsOthers` | src/components/AlertManagement/index.tsx:71 | every other row is kept, in order; an absent id changes nothing |
| `AlertManagement.AlertList.constructor` | src/components/AlertManagement/index.tsx:18-24 | the list starts empty and loading, with no messages, no pending delete, no search and collapsed |
| `AlertManagement.AlertList.Shown` | src/components/AlertManagement/index.tsx:100-107 | the shown rows are a prefix of the search result |
| `AlertManagement.AlertList.LoadAlerts` | src/components/AlertManagement/index.tsx:32-61 | signed out or on failure the list stays and the matching error is set; otherwise the list is the normalised records, newest first, as a permutation; loading ends in every case |
| `AlertManagement.AlertList.DeleteAlert` | src/components/AlertManagement/index.tsx:63-80 | signed in: rows with that id are removed, success is reported, the pending delete is cleared, and the service is handed the uid; signed out: only the error changes |
| `Auth.GenerateToken` | src/contexts/AuthContext.tsx:23-32 | the token carries the uid, is issued in the current second and expires 86 400 s after issue |
| `Auth.IsTokenValid` | src/contexts/AuthContext.tsx:34-51 | missing, empty or undecodable tokens are invalid; a decoded token is valid iff `exp` is not before the current second |
| `Auth.FreshTokenValid` | src/contexts/AuthContext.tsx:23-51 | a new token is valid from its issue until 24 hours later, inclusive |
| `Auth.OldTokenInvalid` | src/contexts/AuthContext.tsx:23-51 | from 86 401 s after issue on, the token is invalid |
| `Auth.IsAuthenticated` | src/contexts/AuthContext.tsx:177 | authenticated when a user is set and the state's token is non-empty and valid now |
| `Auth.AuthenticatedIff` | src/contexts/AuthContext.tsx:177 | authenticated iff a user is set and the state's token is valid |
| `Auth.LoginStep` | src/contexts/AuthContext.tsx:80-104 | a failed sign-in changes nothing and answers false; a successful one sets the user and one fresh token in state and in both storage keys |
| `Auth.LoginAuthenticates` | src/contexts/AuthContext.tsx:80-104 | after a successful login the session is authenticated for the next 24 hours |
| `Auth.LogoutStep` | src/contexts/AuthContext.tsx:106-116 | a successful sign-out clears user, token and both keys; a failed one changes nothing |
| `Auth.LogoutDeauthenticates` | src/contexts/AuthContext.tsx:106-116 | after a successful logout nobody is authenticated |
| `Auth.RefreshStep` | src/contexts/AuthContext.tsx:118-126 | without a user: no change and null; with one: the same new token in state, in storage and as the answer |
| `Auth.RefreshAuthenticatesIff` | src/contexts/AuthContext.tsx:118-126 | a refresh authenticates exactly when a user is set |
| `Auth.InitializeStep` | src/contexts/AuthContext.tsx:59-78 | restores user and token only from a valid stored token and a stored user; a stored `null` user restores the token with no user; an unparsable stored user removes both keys; loading ends |
| `Auth.InitializeRestoresIff` | src/contexts/AuthContext.tsx:59-78 | from an empty state, a user is restored iff the stored token is valid and the stored user parses, and the restored session is authenticated |
| `Auth.AuthChangedStep` | src/contexts/AuthContext.tsx:143-172 | a reported user is set and stored; a valid stored token is kept, otherwise a new one goes to state and storage; a sign-out report clears everything; loading ends |
| `Auth.AuthChangedLeavesValidStoredToken` | src/contexts/AuthContext.tsx:152-157 | after a user is reported, the stored token is valid |
| `Auth.SignedInButNotAuthenticated` | src/contexts/AuthContext.tsx:143-172 | a reload with a valid stored token but no stored user ends signed in yet unauthenticated, and a refresh authenticates |
| `Auth.AuthProvider.constructor` | src/contexts/AuthContext.tsx:53-56 | no user, no token, loading, over the browser's stored keys |
| `Auth.AuthProvider.InitializeAuth` | src/contexts/AuthContext.tsx:59-78 | performs exactly `InitializeStep` on the provider's state |
| `Auth.AuthProvider.Login` | src/contexts/AuthContext.tsx:80-104 | performs exactly `LoginStep` and returns its answer |
| `Auth.AuthProvider.Logout` | src/contexts/AuthContext.tsx:106-116 | performs exactly `LogoutStep` |
| `Auth.AuthProvider.RefreshToken` | src/contexts/AuthContext.tsx:118-126 | performs exactly `RefreshStep` and returns its token |
| `Auth.AuthProvider.OnAuthStateChanged` | src/contexts/AuthContext.tsx:143-172 | performs exactly `AuthChangedStep` |
| `RouteGuard.GuardView` | src/hooks/useProtectedRoute.tsx:30-43 | loading shows the loading view whatever the session; otherwise a required token without authentication redirects to '/login', and anything else shows the children |
| `RouteGuard.GuardDefaultRequiresToken` | src/hooks/useProtectedRoute.tsx:12 | omitting `requireToken` is the same as passing true, so an unauthenticated visit redirects |
| `RouteGuard.GuardChildrenIff` | src/hooks/useProtectedRoute.tsx:30-43 | children are shown iff loading is over and the token is not required or the user is authenticated |
| `RouteGuard.ShouldRefresh` | src/hooks/useProtectedRoute.tsx:18 | a refresh is attempted once loading is over and the session is not authenticated |
| `RouteGuard.RedirectMeansRefresh` | src/hooks/useProtectedRoute.tsx:16-41 | every redirect comes with a refresh attempt, and no refresh is attempted while a token-guarded page is shown |
| `RouteGuard.RequireAuth` | src/hooks/useProtectedRoute.tsx:52-53 | returns the component iff authenticated, and the login redirect otherwise |
| `RouteGuard.RequireAuthMatchesGuard` | src/hooks/useProtectedRoute.tsx:39-53 | `requireAuth` and a token-requiring guard agree once loading is over |
| `RouteGuard.RefreshOpensPage` | src/hooks/useProtectedRoute.tsx:16-43 | with a user but no valid token the guard redirects to /login and asks for a refresh in the same render; the refreshed state passes the guard, but the redirect to /login has already happened |

## Left out

- Cloud calls. The document store's write, query and server timestamps, and the identity provider's sign-in, sign-out and state subscription, are not modelled. Their outcomes are parameters: success or failure, the records returned, and the user reported. The query's own filter (active and unexpired) and its ordering belong to the store and are not modelled. `CollectActiveAlerts` takes the returned documents as given.
- `getAlerts`, which the management list calls, is imported from the service but is not defined in `src/services/firebaseService.ts`. Its result is a parameter of `LoadAlerts`.
- Clock and timers. The current time is a parameter. `generateToken` reads the clock twice; the model takes both readings as one. The 60-second expiry poll, the 2-second form reset after a successful submit, the 3-second success-message timeout and the live clock are not modelled.
- Locale date formatting, React rendering, `dangerouslySetInnerHTML`, `window.confirm` and navigation are not modelled. Route outcomes are the values `LoadingView`, `RedirectToLogin`, `Children` and `NavigateToLogin`.
- Token encoding. `btoa`, `atob` and `JSON` are abstracted: a token is a payload, undecodable text, or the empty string. A decodable token whose payload lacks `exp` would be accepted by the source, because `undefined < now` is false; the model has no such token.
- `Markup.ReplaceAll` implements only the literal-delimiter, non-greedy `OPEN(.*?)CLOSE` replacements the portal uses, not a general regular-expression engine.
- `Text.Lower` maps only ASCII and Latin-1 capitals. Full Unicode case mapping, including multi-character results, is not modelled.
- `Text.IsWhitespace` is the fixed ECMAScript whitespace and line-terminator set. No Unicode database lookup is modelled.
- Date parsing of a chosen expiry date is a parameter (`parseDate`); an invalid date is not modelled.
- `AlertService.DefaultStyle` is a plain lookup. The source indexes an object literal, so a type such as `constructor` would find an inherited property instead of falling back to `info`. The model treats every type it does not list as unknown.
- `CreateAlert.AlertForm.SectionChange` requires an index inside the list. The editors only report existing positions; the source would grow the array with a hole for an index past the end.
- `AlertManagement.SortNewestFirst` promises order and permutation, not stability. The adjacent-swap insertion sort happens to be stable.
- `RouteGuard.RefreshOpensPage` states only that the refreshed state would pass the guard. React's ordering of effects and navigation is not modelled. In the program, the `<Navigate>` child redirects to /login in the same render that schedules the refresh, so the page is not shown again after the refresh.
- Sections carry their type as a string. The TypeScript union of allowed type names is not enforced, since the form passes arbitrary strings through.
- The list view's `handleRefresh`, the form's preview rendering and the `AlertSectionEditor` widgets are rendering-only and are not modelled.
