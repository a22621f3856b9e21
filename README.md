# ICT repair desk: client session model

This project models the client-side rules of a repair-ticket desk web app, written in
React over a hosted database. End users submit equipment-repair tickets and track
them by ticket number. Administrators sign in, update tickets, mark them repaired and
delete them. The app keeps its state in React state variables on the client. This
project models that state as one Dafny class, `Session.Session`, whose methods are the
app's handlers. The string and counting rules the handlers use are pure functions:

- `Text`: the JavaScript string operations the handlers rely on, proved against a
  reference reading (`ParseDigits` undoes `String(n)` and zero padding). These are
  `String(n)`, `padStart`, `startsWith`, `trim`, and the filter that keeps only the
  digits typed into a code box.
- `Records`: the ticket row, the record a submission inserts, the submission form,
  and the repair-type and status constants.
- `Cache`: questions asked of the cached ticket list. It covers filter-and-count,
  the per-type statistics, lookup by number (`find`), the record "Mark as Repaired"
  sends, and how a fetch result replaces the cache.
- `Allocator`: the ticket-number rule. A ticket number is the year, the two-digit
  month and the two-digit day, followed by the count of cached tickets carrying that
  date prefix plus one, left-padded with `0` to five digits.
- `Gate`: the four-digit challenge that must be typed back before a submission or
  an admin sign-in.
- `Session`: the class with the app's state fields and its handlers.
- `Scenarios`: two end-to-end runs of the handlers, proved from their contracts.

The database, the sign-in service, the clock and the random draw become handler
parameters:

- a fetch result (`FetchResult`, `MessageFetch`);
- a write result (`WriteResult`);
- a sign-in result (`AuthResult`);
- the local date (`CalendarDate`);
- the integer drawn for the challenge.

The allocator counts: the sequence number is the number of cached tickets of the day
plus one. A rule taking the largest suffix used that day plus one would differ from
the count rule once a ticket of the day other than its highest-numbered one is
deleted. `Allocator.NextIsFresh` and
`Allocator.AllocationKeepsSuffixesWithinCount` prove that the count rule gives a new
number while `SuffixesWithinCount` holds: every cached number of the day reads, after
the prefix, as at most the day's count. `Allocator.CountRuleRepeatsAfterDelete`
shows a cache in which that condition fails after a deletion and the count rule
hands out a number that is already in use. These lemmas speak of the cache only,
not of the store: a cache that is stale because a load or a refresh failed (it is
kept as it was, or stays empty at mount) also makes the count rule repeat a number
the store already holds, as concurrent clients do.

In the source, the ticket refresh after a successful insert is started but not
awaited, so it finishes after the form reset. The two write different state
variables, so `Session.Session.Submit` applies the refresh result inside the call.
The final state is the same either way.

## Model

| member | source | states |
|---|---|---|
| `Text.NatToString` | src/App.js:575-577 | String(n) of a non-negative integer is a non-empty string of decimal digits whose first digit is 0 only for n = 0 |
| `Text.ParseNatToString` | src/App.js:575-577 | reading the digits of String(n) back gives n |
| `Text.NatToStringLength` | src/App.js:577 | String(n) has at most w characters exactly when n < 10^w |
| `Text.PadStart` | src/App.js:575-577 | padStart reaches the width only by adding fill characters on the left, and never truncates a longer string |
| `Text.ZeroPad` | src/App.js:577 | String(n).padStart(w, '0') is all digits, exactly w long when String(n) is shorter and otherwise String(n) itself, and always ends with String(n) |
| `Text.ZeroPadRoundTrip` | src/App.js:577 | a zero-padded number reads back as the number |
| `Text.ZeroPadWidth` | src/App.js:575-577 | a number below 10^w padded to w is exactly w characters long |
| `Text.ZeroPadInjective` | src/App.js:577 | two different numbers never pad to the same string |
| `Text.FourDigits` | src/App.js:534 | every integer from 1000 to 9999 is written with exactly four digits |
| `Text.ParseLeadingZeros` | src/App.js:577 | leading zeros do not change the value of a digit string |
| `Text.KeepDigits` | src/App.js:1048 | replace(/[^0-9]/g, '') leaves only digits, is no longer than its input and leaves an all-digit input as it is |
| `Text.KeepDigitsOne` | src/App.js:1048 | one character is kept when it is a digit and dropped otherwise |
| `Text.KeepDigitsConcat` | src/App.js:1048 | the filter of a concatenation is the filters of the parts, in order; with KeepDigitsOne this fixes the result on every input |
| `Text.KeepDigitsIdempotent` | src/App.js:1048 | filtering a filtered code again changes nothing |
| `Text.StartsWith` | src/App.js:576 | startsWith(p): p is no longer than s and is the prefix of s of its own length |
| `Text.IsWhitespace` | src/App.js:631 | the characters trim() removes: ECMAScript WhiteSpace and LineTerminator code points |
| `Text.TrimStart` | src/App.js:631 | drops exactly the leading whitespace: what is dropped is whitespace, and what is left is a suffix not starting with whitespace |
| `Text.TrimEnd` | src/App.js:631 | drops exactly the trailing whitespace |
| `Text.Trim` | src/App.js:631 | trim() is empty exactly when the input is all whitespace; otherwise the result neither starts nor ends with whitespace |
| `Text.TrimSurrounded` | src/App.js:631 | a number typed with whitespace around it trims to exactly the number |
| `Cache.CountWhere` | src/App.js:576 | filter(p).length is at most the length; it is 0 exactly when nothing matches and the full length exactly when everything matches |
| `Cache.CountWhereConcat` | src/App.js:576 | counting over a concatenation adds the counts of the parts |
| `Cache.TypeCount` | src/App.js:1222 | getTypeCount(t) is at most the cache size, and 0 exactly when no cached ticket has repair type t |
| `Cache.TypeCountIsMultiplicity` | src/App.js:1222 | getTypeCount(t) equals how often t occurs among the cached tickets' repair types |
| `Cache.TypeCountsBounded` | src/App.js:209-214 | the four statistics (Desktop, Laptop, Printer, Internet) add up to at most the number of cached tickets |
| `Cache.FindByNumber` | src/App.js:637 | find returns none exactly when no cached ticket has the number; otherwise it returns a cached ticket with that number that no earlier cached ticket shares |
| `Cache.MarkRepaired` | src/App.js:457 | the record sent by "Mark as Repaired" has status Repaired and agrees with the selected ticket on every other field |
| `Cache.Refreshed` | src/App.js:545-550 | the cache after fetchTickets: the old cache on error, `data || []` otherwise |
| `Cache.RefreshIdempotent` | src/App.js:545-550 | applying the same fetch result twice gives the same cache as applying it once |
| `Cache.RefreshReplaces` | src/App.js:550 | a successful fetch gives the same cache whatever was cached before |
| `Allocator.DatePrefix` | src/App.js:575 | the date prefix is all digits: the year's digits and then four more |
| `Allocator.DatePrefixFields` | src/App.js:575 | the prefix reads back as year, then month and day in exactly two characters each; with a four-digit year it is 8 characters |
| `Allocator.SameDayCount` | src/App.js:576 | the count of cached tickets whose number starts with the prefix is at most the cache size, and 0 exactly when none does |
| `Allocator.SameDayCountConcat` | src/App.js:576 | the same-day count of a concatenation is the sum of the parts' counts |
| `Allocator.NextTicketNumber` | src/App.js:575-578 | the new number starts with the date prefix, is all digits, and after the prefix reads as the same-day count plus one in exactly five digits, or in all the digits of that count when it has more (padStart never truncates) |
| `Allocator.TicketNumberFormat` | src/App.js:575-578 | with a four-digit year and a count below 99999 the number is 13 digits: the 8-digit date prefix, then the count plus one |
| `Allocator.FirstOfDay` | src/App.js:576-578 | when no cached ticket has today's prefix the number is the prefix followed by 00001 |
| `Allocator.InsertedTicketCounts` | src/App.js:576-595 | once the refreshed cache holds the new ticket, at any position, the same-day count is one higher |
| `Allocator.SequentialSubmissions` | src/App.js:575-595 | two sequential submissions on a day without tickets, with the first back in the cache, get 00001 and then 00002 |
| `Allocator.NextIsFresh` | src/App.js:576-578 | while every cached number of the day reads as at most the day's count, the allocated number is not in the cache |
| `Allocator.AllocationKeepsSuffixesWithinCount` | src/App.js:576-578 | adding the newly numbered ticket at any position keeps that condition, so the next allocated number is again not already in the cache |
| `Allocator.CountRuleRepeatsAfterDelete` | src/App.js:576-577 | with only ...00002 of the day left in the cache (its 00001 deleted), the next number is ...00002 again, and the freshness condition fails |
| `Gate.Challenge` | src/App.js:534 | the challenge for a draw from 1000 to 9999 is four digits, does not start with 0, and reads back as the draw |
| `Gate.SubmissionCodeAccepted` | src/App.js:568 | handleSubmit goes on only with a non-empty entered code equal to the generated code |
| `Gate.LoginCodeAccepted` | src/App.js:662 | handleAdminLogin goes on only with a code equal to the generated code |
| `Gate.StaleChallengeRejected` | src/App.js:532-537 | a challenge from an earlier visit is refused by both the submission check and the login check once a different one is drawn |
| `Gate.ChecksDifferOnlyOnEmpty` | src/App.js:662 | the login check (equality only) accepts what the submission check accepts, plus the empty entry against an empty code |
| `Session.NewTicketDraft` | src/App.js:580-588 | the inserted record carries the form's five fields, status Evaluation and the allocated number |
| `Session.LatestMessage` | src/App.js:561 | the broadcast shown is the newest row's message, or empty when there is no row or the message is null |
| `Session.Session.constructor` | src/App.js:491-529 | the app mounts on the home view with everything else empty: no user, empty cache, the initial form `Records.InitialForm` (empty text fields, repair type Desktop, lines 496-502), no code, tutorial closed at step 0 |
| `Session.Session.SetView` | src/App.js:532-537 | changing to the submission or admin-login view (lines 676-681) draws a new challenge; otherwise, and when the view does not change, the code is kept |
| `Session.Session.FetchTickets` | src/App.js:540-551 | on error the cache is unchanged; on success it becomes the returned rows, or empty for null |
| `Session.Session.FetchAdminMessage` | src/App.js:554-562 | on error the broadcast is kept; on success it becomes the newest message or empty |
| `Session.Session.Start` | src/App.js:684-694 | a signed-in user is restored into the admin view, then the tickets and broadcast are loaded |
| `Session.Session.EditForm` | src/App.js:964-1023 | the form takes the edited values |
| `Session.Session.EditVerificationCode` | src/App.js:1047-1050 | the typed code keeps only its digits |
| `Session.Session.EditLoginData` | src/App.js:1162-1194 | the login form takes the email and password as typed and only the digits of the code |
| `Session.Session.EditTicketNumberInput` | src/App.js:1094 | the tracking box takes the typed text |
| `Session.Session.Submit` | src/App.js:565-606 | an empty or wrong code, or a failed insert, changes nothing (cache, form, code); otherwise the draft with the allocated number is inserted, the cache refreshed, the form reset to `Records.InitialForm` (lines 597-603), the typed code cleared and the number shown |
| `Session.Session.TrackTicket` | src/App.js:630-645 | an empty or all-whitespace input gives the empty-input message and no ticket; a found number gives the first matching ticket and no message; otherwise no ticket and the not-found message; the cache is not touched |
| `Session.Session.AdminLogin` | src/App.js:659-673 | a code other than the generated one, or a failed sign-in, changes nothing; otherwise the user is recorded and the admin view shown |
| `Session.Session.Logout` | src/App.js:777-781 | the user is cleared and the home view shown |
| `Session.Session.UpdateTicket` | src/App.js:609-617 | the cache is refreshed only when the store accepted the update |
| `Session.Session.DeleteTicket` | src/App.js:620-627 | the cache is refreshed only when the store accepted the delete |
| `Session.Session.OpenTutorial` | src/App.js:788 | the tutorial button shows the overlay, which, opened from the closed state, always starts at step 0 |
| `Session.Session.CloseTutorial` | src/App.js:841-845 | the close button hides the overlay and goes back to step 0, so a closed tutorial is always at step 0 |
| `Session.Session.NextTutorialStep` | src/App.js:737-744 | below the last step the step goes up by one; on the last step the tutorial closes and goes back to step 0; the step stays within the six steps |
| `Session.Session.PrevTutorialStep` | src/App.js:746-750 | the step goes down by one unless it is already 0; it stays within the six steps |
| `Scenarios.StaleChallengeScenario` | src/App.js:532-571 | typing one challenge, leaving the view and coming back to a different challenge, then submitting, is refused |
| `Scenarios.TwoSubmissionsScenario` | src/App.js:565-606 | on a day without tickets, two submissions, the second made from a cache that holds the first, are numbered 00001 and then 00002 |

## Left out

- Database calls (select, insert, update, delete) and sign-in calls (signInWithPassword,
  getUser, signOut) are outside the model. Their results are handler
  parameters. What the store does with an insert, update or delete is not modelled;
  only the refetched rows are.
- The realtime channels on the tickets and broadcast tables, and their removal on
  unmount, are left out. A change event only calls fetchTickets (or fetchAdminMessage),
  which `Session.Session.FetchTickets` models.
- Posting a broadcast (delete all rows, then insert) is left out. It only writes to
  the store and raises a browser alert. The admin panel's broadcast text box also
  writes the shared adminMessage state directly as it is typed (src/App.js:181),
  which the banner (src/App.js:809) then shows; that edit is not modelled.
- Concurrent submissions from several clients are left out. They can get the same
  number from stale caches, and the code does nothing about it.
- `Math.random` and `Math.floor` are left out because they use floating point. The
  drawn integer in [1000, 9999] is a parameter of `SetView`.
- `new Date()` and the clock interval are left out. The local date is a parameter,
  with a month from 1 to 12 and a day from 1 to 31, as getMonth() + 1 and getDate()
  give them. The year is a non-negative integer.
- The four-character `maxLength` of the code boxes is an HTML attribute and is left
  out. `Session.Session.EditVerificationCode` and `Session.Session.EditLoginData` keep
  every digit typed.
- The per-field login setters are merged into `Session.Session.EditLoginData`, which
  sets all three fields at once.
- The per-field form setters (src/App.js:964-1023) are merged into
  `Session.Session.EditForm`, which sets the whole form at once. It accepts any repair
  type, while the form's select offers only the four in `Records.RepairTypes`.
- The `required` attributes of the form fields and code boxes (src/App.js:965, 996,
  1010, 1024, 1051, 1163, 1177, 1195) are left out: the browser does not call
  handleSubmit or handleAdminLogin while one of them is empty. `Session.Session.Submit`
  and `Session.Session.AdminLogin` also accept such calls, so the model allows runs
  the app does not, such as the second submission of `Scenarios.TwoSubmissionsScenario`
  with the reset, empty form. The code check itself still refuses an empty code in
  `Session.Session.Submit`. The success dialog (src/App.js:1230-1290) also covers the
  screen and its only button leaves the page (src/App.js:1268-1278), so one page
  session never submits twice; `Session.Session.Submit` does not require the dialog
  to be closed, and the scenario's second submission stands for the next visit
  working from a cache that holds the first ticket.
- The tutorial's Previous and Next buttons exist only inside the shown overlay
  (src/App.js:823), so `Session.Session.NextTutorialStep` and
  `Session.Session.PrevTutorialStep` require the overlay to be shown.
- Printing a ticket, browser alerts and confirms, dark mode and its local storage,
  the redirect dialog, the admin panel's selection modal and all rendering are left
  out. The same goes for the tutorial steps' text and icons: only their titles and
  count are kept.
- build.js (desktop packaging) is not part of this model.
- The earlier revision src/App - Copy.js is not part of this model.
