# telegram_key admission pipeline, in Dafny

This project models the admission core of the telegram_key bot. The bot answers KeePass
look-ups in Telegram and lets in only users who pass several steps:

1. The user sends the shared access PIN.
2. A six-digit code is mailed to the administrator and the user must type it back.
3. The administrator approves or denies the request with inline buttons.

The PIN step and the e-mail-code step are guarded by sliding-window rate limiters, and
every text message by a request limiter. Two paths skip a limiter: typing "resend" at the
code step bypasses the 2FA limit, and `handle_callback_query` (bot.py:903-935) checks no
limit at all. Buttons built for a known user carry a CSRF token bound to that user. The
admin users keyboard (pagination.py:124-182) and any keyboard built without a user id keep
raw callbacks, which the callback handler then refuses.

One module per source file. Each file follows the source's own form: the stateful
components are classes whose methods update their fields. Most such methods are proved
against a specification function on the old state. The two search methods of
`KeePassHandler` instead state the reconnect effect and the records returned, in terms of
the state after the reconnect check. The lemmas beside the specification functions state
what the source promises.

| module | file | models |
|---|---|---|
| `RateLimiting` | rate_limiter.dfy | `RateLimiter`: three per-user timestamp lists (PIN, 2FA, requests), pruned and appended in place |
| `EmailAuth` | email_auth.dfy | `Email2FA`: the per-user challenge store and its issue / verify / resend / expiry lifecycle |
| `Csrf` | csrf_manager.dfy | `CSRFManager`: the token and expiry maps, binding an action to a token behind a fixed delimiter and extraction at the last delimiter |
| `Auth` | auth.dfy | `AuthManager`: the approved-user and pending-request lists, the removal keyboard, the admin's approve / deny handler |
| `InputValidation` | input_validator.dfy | every `validate_*`, the suspicious-character search and `sanitize_input` |
| `Keyboards`, `Pagination` | keyboards.dfy, pagination.dfy | page arithmetic, the result and user keyboards, and CSRF binding of their callbacks |
| `Bot` | bot.dfy | `handle_text_message` (length check, request limit, PIN and e-mail-code branches) and the CSRF gate and first dispatch of `handle_callback_query` |
| `KeePass` | keepass_handler.dfy | HTML escaping, password strength, the entry text, group paths, the search filters and the reconnect decision |
| `Text`, `Wrappers`, `Sets` | text.dfy, wrappers.dfy, sets.dfy | Python's `strip`, `lower`, `rsplit`, `split`, `int()` and `str()` on ASCII text; `Option`; a set-member lemma |

Time is an integer number of seconds `now`, passed to every operation that reads the clock.
Three other inputs are arguments:
- `delivered` says whether the SMTP send succeeded;
- `code` and `token` are the random values the source would generate;
- `db` is the database file as opened: its entries and modification time, or `None`.

Telegram replies are `Reply` / `CallbackResult` tags. Keyboards are sequences of rows of
`Button(text, callback)`.

Two facts about the code that the contracts make visible:
- `add_user_request` (auth.py:60-80) does not look at the approved list, so a user can be
  approved and pending at once. The user is approved and not pending only right after
  `approve_user` (`Auth.AuthManager.ApproveUser`); that is not a global invariant.
- The approve / deny handler (auth.py:348-422) never checks who clicked. This is Finding 1
  below. `Bot.HandleCallbackQuery` runs the corrected handler; the handler as written is
  `Auth.AuthManager.HandleAdminCallbackAsWritten`.

## Model

| member | source | states |
|---|---|---|
| `Text.Strip` | bot.py:184 | The result has no leading or trailing whitespace, is no longer than the input, and is empty exactly when the input is all whitespace. It is the slice of the input that starts after the leading whitespace, and everything after it is whitespace |
| `Text.Lower` | keepass_handler.py:145-148 | Same length; no capital letter is left; every other character is kept; each capital becomes the lower-case letter the same distance from `a` |
| `Text.ParseInt` | auth.py:377 | `int()` on text: plain digits read as their decimal value, and any accepted text contains a digit. Blanks around the number (space and tab through carriage return, the ones `int()` skips), a sign and single underscores between digits are accepted |
| `Text.ParseIntIgnoresSpace` | auth.py:377 | Removing the leading and trailing space and tab-through-carriage-return characters first does not change what `int()` reads |
| `Text.ParseIntSpaced` | auth.py:377 | `int(" 5")` is 5: a leading blank is not an error |
| `Text.ParseIntRejectsSeparator` | auth.py:377 | `int()` rejects the file separator U+001C before "5", which `str.strip` removes: its blanks are fewer than Python's whitespace |
| `Text.IntToStringChars` | auth.py:320-327 | `str(n)` is non-empty, ends in a digit, starts with '-' exactly for a negative number, and has digits everywhere else |
| `Text.IntToStringInjective` | auth.py:48-58 | Different integers have different decimal texts |
| `Text.LowerIdempotent` | keepass_handler.py:145-148 | Lower-casing twice is lower-casing once |
| `Text.RSplitLast` | csrf_manager.py:162 | `None` exactly when the separator is absent; otherwise the text is `before + sep + after`, and the separator does not occur later than `before` (the split is at the last occurrence) |
| `Text.TakeUntil` | auth.py:377 | The field before the first `c`: a prefix of the text containing no `c`, followed by `c` whenever it is shorter than the text |
| `Text.Truncate` | auth.py:257-261 | Text within the limit is unchanged; longer text becomes exactly `limit` characters: its first `limit - 3` characters followed by "..." |
| `Text.ParseIntToString` | auth.py:377 | `int(str(n)) == n` for every integer, negative ones included |
| `Csrf.Unbind` | csrf_manager.py:158-162 | No delimiter gives `None`; otherwise the input is the data, the delimiter and the token, split at the last delimiter |
| `Csrf.BindingToken` | csrf_manager.py:141-145 | The user's token when it is stored and unexpired; otherwise the newly generated token |
| `Csrf.Bind` | csrf_manager.py:145 | The action, the fixed delimiter and the token, in that order; its partner is `Csrf.UnbindBind` |
| `Csrf.UnbindBind` | csrf_manager.py:141-167 | For a token without a pipe character, unbinding a bound action gives back the action and the token, even when the action itself contains the delimiter |
| `Csrf.BindAgain` | csrf_manager.py:130-145 | Binding a second time for the same user at the same moment reuses the token from the first binding and changes neither map |
| `Csrf.Extracted` | csrf_manager.py:147-167 | The action is returned exactly when the delimiter is present and the token part is the user's stored, unexpired token; it is the text before the last delimiter |
| `Csrf.ExtractBound` | csrf_manager.py:130-167 | Round trip: extracting, for the same user before expiry, what was bound with their token gives back the action |
| `Csrf.ExtractRejectsForeignToken` | csrf_manager.py:164-165 | Data bound with a token that is not the user's current unexpired token (another user's, say) is rejected |
| `Csrf.CsrfManager.constructor` | csrf_manager.py:15-19 | Both maps start empty |
| `Csrf.CsrfManager.GenerateToken` | csrf_manager.py:25-43 | Overwrites the user's token and sets its expiry to `now + 3600`; other users are untouched |
| `Csrf.CsrfManager.RefreshToken` | csrf_manager.py:95-105 | Same effect as generating a token |
| `Csrf.CsrfManager.CleanupUserToken` | csrf_manager.py:107-112 | Removes the user from both maps and from nothing else |
| `Csrf.CsrfManager.ValidateToken` | csrf_manager.py:45-73 | True exactly for the user's stored, unexpired token. An expired token is deleted from both maps; otherwise neither map changes, and a successful check does not rotate the token |
| `Csrf.CsrfManager.GetUserToken` | csrf_manager.py:75-93 | The token while it is unexpired, else `None`; an expired one is deleted from both maps |
| `Csrf.CsrfManager.CleanupExpiredTokens` | csrf_manager.py:115-128 | Removes exactly the users whose expiry has passed, from both maps; the two maps keep the same keys |
| `Csrf.CsrfManager.AddCsrfToCallbackData` | csrf_manager.py:130-145 | Returns the action bound to the user's live token. A new token is made only when there is none or it has expired, so a live token leaves both maps as they were |
| `Csrf.CsrfManager.ExtractCallbackData` | csrf_manager.py:147-167 | Returns `Extracted` of the old maps; the only state change is deleting the user's expired token when the data carried a token part |
| `Csrf.BindThenExtract` | csrf_manager.py:130-167 | Binding an action and then extracting it for the same user gives the action back |
| `Keyboards.TotalPages` | pagination.py:38 | At least one page for a non-empty list |
| `Keyboards.TotalPagesBounds` | pagination.py:38 | `(total - 1) * k < n <= total * k`: the pages hold all items and the last page is not empty |
| `Keyboards.ClampPage` | pagination.py:41 | The page is forced into `[0, total - 1]`: kept when inside, 0 when below, the last page when above |
| `Keyboards.PageStartInside` | pagination.py:44 | The first index of every existing page lies inside the list |
| `Keyboards.PageSlice` | pagination.py:44-46 | Between 1 and `k` items, consecutive from `page * k` in their original order; a full page, or one that reaches the end of the list |
| `Keyboards.BindRow` | pagination.py:66-70 | Binding keeps the number of buttons in a row |
| `Keyboards.BindKeyboard` | pagination.py:66-72 | Binding keeps the number of rows and the length of every row |
| `Keyboards.NavRow` | pagination.py:75-98 | "Back" first exactly when `page > 0`, then the `page+1/total` indicator, then "forward" exactly when `page < total - 1` |
| `Keyboards.BoundKeyboardUnbinds` | pagination.py:66-70 | With a user id, every button keeps its text and its callback unbinds to the unbound callback and the user's token |
| `Keyboards.UnboundKeyboardIsLayout` | pagination.py:69 | Without a user id (or with id 0), callbacks are left raw |
| `Keyboards.BindCallback` | pagination.py:69-70 | One callback bound through the CSRF manager. After the first binding the token is fixed, so every later binding of the same keyboard uses the same token |
| `Keyboards.BuildNavRow` | pagination.py:75-98 | The bound navigation row is `NavRow` with every callback bound |
| `Pagination.ResultRows` | pagination.py:50-72 | One row per shown result, in order, the `i`-th numbered `first + i` |
| `Pagination.SearchResultsLayout` | pagination.py:34-35 | No results give an empty keyboard |
| `Pagination.SearchResultsLayoutShape` | pagination.py:38-98 | On the clamped page there are 1 to `k` result rows within the list, plus a navigation row exactly when there is more than one page, with "p_" callbacks and "pi" |
| `Pagination.SearchResultsLayoutRows` | pagination.py:44-72 | Row `i` is the button for result `p * k + i` of the clamped page `p`, numbered `p * k + i + 1` |
| `Pagination.ResultLabelShape` | pagination.py:54-64 | The label starts with the number and ". ", then the title: unchanged within the limit (20 with a group, 30 without), otherwise its first `limit - 3` characters and "..." |
| `Pagination.ResultLabel` | pagination.py:54-64 | The number, ". ", the truncated title and, with a group, the group in parentheses; see `Pagination.ResultLabelShape` |
| `Pagination.PageBounds` | pagination.py:116-122 | `1 <= first <= last <= n`, with `first = p * k + 1` and `last = min(p * k + k, n)` on the clamped page |
| `Pagination.GetPageInfo` | pagination.py:102-122 | The "not found" text exactly when there are no results |
| `Pagination.PageInfoMatchesKeyboard` | pagination.py:116-122 | The page info and the keyboard use the same clamped page, and its item count equals the number of result rows |
| `Pagination.AdminUserRows` | pagination.py:150-163 | One row per shown user, in order, the `i`-th numbered `first + i` |
| `Pagination.AdminUsersLayout` | pagination.py:135-136 | No users give an empty keyboard |
| `Pagination.AdminUsersLayoutShape` | pagination.py:139-180 | 1 to `k` user rows within the list on the clamped page, plus a "users_page_" navigation row exactly when there is more than one page |
| `Pagination.AdminUsersLayoutRows` | pagination.py:145-163 | Row `i` is the button for user `p * k + i`, numbered `p * k + i + 1` |
| `Pagination.BindResultRows` | pagination.py:50-72 | The loop builds `ResultRows` with every callback bound to the user's token |
| `Pagination.CreateSearchResultsKeyboard` | pagination.py:22-100 | The keyboard is `SearchResultsLayout` bound with the user's token, and a token is created only when some button was bound |
| `Pagination.CreateAdminUsersKeyboard` | pagination.py:124-182 | The keyboard is `AdminUsersLayout` (no binding) |
| `Pagination.BuildAdminUserRows` | pagination.py:150-163 | The loop builds `AdminUserRows` |
| `Pagination.BuildAdminUsersNav` | pagination.py:166-180 | The loop builds the "users_page_" `NavRow` |
| `Pagination.CreateBackKeyboard` | pagination.py:184-199 | One "back to search" button, with a bound "bs" callback |
| `RateLimiting.Prune` | rate_limiter.py:45-46 | Keeps exactly the timestamps younger than the window, each as often as it occurred, never lengthening the list |
| `RateLimiting.Check` | rate_limiter.py:41-67 | Allowed exactly when the pruned list is shorter than the limit; every timestamp kept is `now` or an old one inside the window |
| `RateLimiting.Oldest` | rate_limiter.py:50 | `min`: a member of the list no larger than any other |
| `RateLimiting.CheckKeepsWindow` | rate_limiter.py:45-66 | After a check every stored timestamp lies inside the window |
| `RateLimiting.CheckOutcome` | rate_limiter.py:41-67 | Allowed: the pruned list plus `now`, with `remaining = max - length` and `length <= max`. Denied: the pruned list is kept, its length is at least `max`, and the wait is at least 1 and, for past timestamps, at most the window |
| `RateLimiting.CheckBound` | rate_limiter.py:49-61 | A list within the limit stays within it |
| `RateLimiting.BurstRecords` | rate_limiter.py:41-67 | `n <= max` checks at one instant record `n` copies of `now` |
| `RateLimiting.BurstAllowed` | rate_limiter.py:41-67 | Each of the first `max` checks at one instant is allowed, with `max - n - 1` remaining |
| `RateLimiting.BurstThenDenied` | rate_limiter.py:49-58 | Check `max + 1` at the same instant is denied, with the whole window to wait |
| `RateLimiting.AllowedAfterWindow` | rate_limiter.py:45-66 | Once every recorded attempt is a window old, the next check is allowed with `max - 1` remaining |
| `RateLimiting.RateLimiter.constructor` | rate_limiter.py:15-29 | Empty lists, the given limits and lockouts (5/3/10, 300 s/180 s by default), a 60-second request window |
| `RateLimiting.RateLimiter.CheckPinRateLimit` | rate_limiter.py:31-67 | Verdict and new list are `Check` of the user's PIN list; other users and the 2FA and request categories are unchanged |
| `RateLimiting.RateLimiter.CheckTwofaRateLimit` | rate_limiter.py:69-105 | The same for the 2FA list |
| `RateLimiting.RateLimiter.CheckRequestRateLimit` | rate_limiter.py:107-143 | The same for the request list, with the 60-second window |
| `RateLimiting.RateLimiter.ResetPinAttempts` | rate_limiter.py:145-149 | Removes only this user's PIN list (nothing for an unknown user); the other categories are unchanged |
| `RateLimiting.RateLimiter.ResetTwofaAttempts` | rate_limiter.py:151-155 | The same for the 2FA list |
| `RateLimiting.RateLimiter.GetPinAttemptsRemaining` | rate_limiter.py:157-166 | Prunes the list without appending and returns `max - length`, which lies in `[0, max]` |
| `RateLimiting.RateLimiter.GetTwofaAttemptsRemaining` | rate_limiter.py:168-177 | The same for the 2FA list |
| `EmailAuth.LiveCodes` | email_auth.py:64-78 | Exactly the unexpired challenges are kept, each unchanged |
| `EmailAuth.IsCodeExpired` | email_auth.py:56-62 | Expired when past the expiry, or when the expiry does not parse; see `EmailAuth.ExpiredStaysExpired` |
| `EmailAuth.ExpiredStaysExpired` | email_auth.py:56-62 | An expired challenge stays expired at every later time |
| `EmailAuth.NewChallenge` | email_auth.py:102-111 | Keeps the code and username, no attempts, three allowed, and expired exactly after `now + 3600` |
| `EmailAuth.AfterSend` | email_auth.py:80-153 | After the cleanup, a delivered send stores the new challenge for the user and a failed one removes it; every other user keeps exactly their unexpired challenge |
| `EmailAuth.Verify` | email_auth.py:155-230 | Only this user's challenge can change or go; success deletes it with no retry; a retry is offered exactly when the challenge is kept, and then with one more attempt counted |
| `EmailAuth.VerifyNotFound` | email_auth.py:168-173 | With no challenge: "not found", no retry, the store unchanged |
| `EmailAuth.VerifyExpired` | email_auth.py:178-185 | An expired challenge, or one whose expiry does not parse, is deleted and cannot be retried, whatever was typed |
| `EmailAuth.VerifyCorrectOnce` | email_auth.py:199-208 | The right code succeeds and deletes the challenge, and verifying it again at once reports "not found" |
| `EmailAuth.VerifySuccessOnlyWithCode` | email_auth.py:155-230 | Success exactly when a stored, unexpired challenge with attempts left has this code |
| `EmailAuth.VerifyWrongCode` | email_auth.py:209-230 | A wrong code uses exactly one attempt. The challenge is kept, and may be retried, exactly when attempts remain; otherwise it is deleted |
| `EmailAuth.WellFormedPreserved` | email_auth.py:102-230 | Sending and verifying keep every stored challenge at `0 <= attempts < max_attempts` |
| `EmailAuth.Email2FA.constructor` | email_auth.py:20-31 | Starts from the loaded store |
| `EmailAuth.Email2FA.CleanupExpiredCodes` | email_auth.py:64-78 | The collect-then-delete loops leave exactly `LiveCodes` of the old store |
| `EmailAuth.Email2FA.SendVerificationCode` | email_auth.py:80-153 | After cleanup, a delivered send stores a fresh challenge (no attempts, three allowed, 60 minutes) replacing any other and returns the code; a failed one leaves no challenge for the user and returns `None` |
| `EmailAuth.Email2FA.VerifyCode` | email_auth.py:155-230 | Result and new store are `Verify` of the old store |
| `EmailAuth.Email2FA.ResendCode` | email_auth.py:232-259 | Deletes the old challenge and then sends; a delivered resend leaves the new code with no attempts counted |
| `InputValidation.DropFinalNewline` | input_validator.py:21-23 | The text, or the text less one final line feed |
| `InputValidation.DollarMatch` | input_validator.py:21-23 | An anchored pattern with no line feed matches the text exactly when the text is the shape, or the shape and one line feed |
| `InputValidation.PinShape` | input_validator.py:22 | 4 to 10 ASCII digits; the line-feed allowance of `$` comes from `DropFinalNewline` |
| `InputValidation.UuidShape` | input_validator.py:21 | The 8-4-4-4-12 hexadecimal form; see `InputValidation.UuidShapeLower` |
| `InputValidation.Suspicious` | input_validator.py:213-230 | One of the 20 listed characters occurs in the text |
| `InputValidation.ContainsSuspiciousChars` | input_validator.py:213-230 | True exactly when one of the 20 listed characters occurs in the text |
| `InputValidation.ValidateMessageLength` | input_validator.py:25-53 | Valid exactly for 1 to 1000 characters; a long message reports its length and the maximum |
| `InputValidation.ValidateSearchQuery` | input_validator.py:55-94 | Valid exactly when the stripped query is non-empty, at most 200 characters and free of the listed characters; the cleaned query is the stripped one |
| `InputValidation.ValidateGroupName` | input_validator.py:96-127 | Valid exactly when the stripped name is non-empty and at most 100 characters (no character filter); the cleaned name is the stripped one |
| `InputValidation.ValidatePinCode` | input_validator.py:129-155 | Valid exactly for 4 to 10 ASCII digits, optionally followed by one line feed |
| `InputValidation.ValidateTwofaCode` | input_validator.py:157-183 | Valid exactly for 6 ASCII digits, optionally followed by one line feed |
| `InputValidation.ValidateUuid` | input_validator.py:185-211 | Valid exactly for the 8-4-4-4-12 hexadecimal form, optionally followed by one line feed |
| `InputValidation.StrippedCodes` | input_validator.py:129-183 | On stripped input (as the bot passes it) the PIN and code checks accept exactly the digit shapes, with no trailing line feed |
| `InputValidation.UuidShapeLower` | input_validator.py:21 | The UUID shape does not depend on letter case |
| `InputValidation.UuidIgnoresCase` | input_validator.py:185-211 | Lower-casing a candidate UUID does not change the verdict (the pattern is compiled with IGNORECASE) |
| `InputValidation.SanitizeInput` | input_validator.py:232-252 | Empty gives empty; otherwise a prefix of the stripped text, exactly `min(1000, length)` long |
| `InputValidation.SanitizeNotIdempotent` | input_validator.py:242-252 | A concrete text on which sanitizing twice differs from sanitizing once, because the cut exposes a trailing space |
| `Auth.Listed` | auth.py:48-58 | True exactly when some record has this user id |
| `Auth.Without` | auth.py:153-156 | Removes the user's records: shorter exactly when the user was listed, and the user is not listed afterwards |
| `Auth.WithoutMembers` | auth.py:153-156 | The records kept are exactly the records of other users |
| `Auth.WithoutConcat` | auth.py:153-156 | Removal works piecewise over a concatenation, so the other records keep their order |
| `Auth.WithoutUnlisted` | auth.py:182-185 | Removing a user who is not listed changes nothing |
| `Auth.FirstUsername` | auth.py:379-383 | The username of the first pending record of the user, or "невідомий" when there is none |
| `Auth.ParseDecision` | auth.py:376-401 | `approve_` selects approve and `deny_` selects deny, with the target the `int()` of the field up to the next '_'; a bad user id exactly when that field does not parse; no decision exactly when neither prefix is present |
| `Auth.ParseDecisionSpaced` | auth.py:376-377 | "approve_ 5" approves user 5, because `int()` skips the blank |
| `Auth.ApproveBadId` | auth.py:376-386 | An approve action whose field up to the next '_' does not parse as an integer is a bad user id |
| `Auth.ParseDecisionSeparator` | auth.py:376-386 | "approve_" followed by U+001C and "5" is a bad user id, because `int()` does not skip the file separator |
| `Auth.ApproveOf` | auth.py:376-377 | Any approve data whose id field reads as `t` approves `t` |
| `Auth.IdField` | auth.py:320-327 | The id field of a generated button is the whole of `str(u)` and reads back as `u` |
| `Auth.ParseDecisionData` | auth.py:320-327 | The approve and deny buttons sent to the admin parse back as the decision for that user |
| `Auth.Decide` | auth.py:348-422 | Corrected handler: anyone but the administrator is refused and the registry is unchanged; the administrator gets the handler as written |
| `Auth.DecideAsWritten` | auth.py:376-422 | Ignored exactly for no decision and unparsable exactly for a bad id; an approve data gives approved or already approved, a deny data denied or not pending, always for the parsed target |
| `Auth.AdminStep` | auth.py:348-422 | Missing token exactly when the data has no token part; invalid exactly when the extracted action is missing or empty; refused as not admin exactly when the check is on and the clicker is not the admin; each refusal leaves the registry unchanged |
| `Auth.DecideAsWrittenEffects` | auth.py:376-422 | Approved: the user is now approved, was not before, and has no pending request. Already approved: users unchanged and no pending request. Denied: users unchanged, the pending request removed. No pending request, no decision or a bad id: nothing changes |
| `Auth.SelfApprovalAsWritten` | auth.py:348-398 | As written, a non-admin holding their own live token can bind "approve_<own id>" and is approved |
| `Auth.SelfApprovalRefused` | auth.py:348-422 | With the administrator check, that forged button is refused and nothing changes, while the administrator's clicks behave as before |
| `Auth.RemovalRows` | auth.py:252-268 | One removal row per shown user, in order |
| `Auth.UsersManagementLayout` | auth.py:236-237 | No users give an empty keyboard |
| `Auth.UsersManagementLayoutShape` | auth.py:240-300 | 1 to `k` removal rows of consecutive users from `p * k` on the clamped page, "up_" navigation exactly when there is more than one page, and always a final back-to-menu row |
| `Auth.AuthManager.constructor` | auth.py:19-27 | Starts from the loaded lists, with nothing saved yet |
| `Auth.AuthManager.AddUserRequest` | auth.py:60-80 | Idempotent: a user already pending changes nothing; otherwise exactly one record is appended and saved. Approved users are untouched |
| `Auth.AuthManager.ApproveUser` | auth.py:141-168 | Removes every pending record of the user; appends and saves, returning true, exactly when the user was not approved. Afterwards the user is approved and not pending |
| `Auth.AuthManager.DenyUser` | auth.py:170-192 | Removes every pending record of the user; true, and saved, exactly when there was one; users untouched |
| `Auth.AuthManager.RevokeUserAccess` | auth.py:194-213 | Removes every approved record of the user; true, and saved, exactly when there was one; pending untouched; the user is no longer allowed |
| `Auth.AuthManager.GetPendingRequests` | auth.py:215-217 | The pending list |
| `Auth.AuthManager.GetAllowedUsers` | auth.py:219-221 | The approved list |
| `Auth.AuthManager.IsUserAllowed` | auth.py:48-58 | The `str` comparison of the source holds exactly when the user id is listed |
| `Auth.AuthManager.LookupPendingUsername` | auth.py:379-383 | The search loop returns `FirstUsername` |
| `Auth.AuthManager.BindRemovalRows` | auth.py:252-268 | The loop builds `RemovalRows` with every callback bound to the admin's token |
| `Auth.AuthManager.CreateUsersManagementKeyboard` | auth.py:223-302 | The keyboard is `UsersManagementLayout` bound with the admin's token; a token is made only when there are users |
| `Auth.AuthManager.SendAccessRequestToAdmin` | auth.py:304-346 | Records the request under `username or "без username"` (idempotently) and gives the admin approve / deny buttons bound to the admin's token. It saves the registry once exactly when the user was not already pending |
| `Auth.AuthManager.HandleAdminCallbackAsWritten` | auth.py:348-422 | The registry and outcome are `AdminStep` without an administrator check; the CSRF state changes only by deleting the clicker's expired token. The registry is saved once exactly when the outcome is an approval or a denial |
| `Auth.AuthManager.HandleAdminCallback` | auth.py:348-422 | The same with the administrator check: a non-admin click leaves both lists unchanged. The registry is saved once exactly when the outcome is an approval or a denial |
| `Auth.AuthManager.HandleAdminCallbackImpl` | auth.py:348-422 | The shared body of the two: no token, a bad token, then the decision; one save exactly for an approval or a denial |
| `Auth.AuthManager.ApplyDecision` | auth.py:376-422 | Applies `DecideAsWritten` to the lists, saving exactly on an approval or a denial |
| `Bot.DisplayName` | bot.py:186 | Never empty; the username itself when it is set |
| `Bot.PinStep` | bot.py:203-253 | The search flags are kept; a code is sent only for the right PIN and is then stored for the user; the code store changes only for the right PIN |
| `Bot.EmailStep` | bot.py:256-312 | The PIN wait is kept; the administrator is asked only when the typed text is the stored, unexpired code |
| `Bot.PinStepEffects` | bot.py:203-253 | A badly formatted PIN changes nothing and uses no rate slot; a throttled or wrong PIN keeps the session and the codes. A correct PIN clears the PIN attempts and moves on to the e-mail code: with no e-mail configuration no code is sent, otherwise a fresh challenge is stored, and a failed send reverts to waiting for the PIN |
| `Bot.PinStateLeftOnlyWithPin` | bot.py:203-253 | The PIN wait ends exactly when the PIN is right and well formed, a rate slot was free, and the code went out or e-mail is not configured; the search flags never change |
| `Bot.ResendBypassesChecks` | bot.py:258-274 | "resend" in any case skips the code format check and the 2FA rate limit, and sends a new code (or removes the challenge when sending fails) |
| `Bot.EmailStepFlags` | bot.py:256-312 | The administrator is asked exactly on success, which needs the stored, unexpired code and ends the wait; a rejected code keeps the wait exactly when it may be retried; any other reply leaves the session unchanged |
| `Bot.AdmissionRoundTrip` | bot.py:203-311 | The right PIN followed, within the hour, by the mailed code asks the administrator, leaves both waits off and consumes the challenge |
| `Bot.IdleReply` | bot.py:314-351 | A user who is not approved gets "no access"; search and group search get the stripped, validated text; otherwise "not understood" |
| `Bot.HandlePin` | bot.py:203-253 | The session, reply, PIN lists and code store are `PinStep` of the old state; the 2FA and request lists are unchanged |
| `Bot.HandleEmailCode` | bot.py:256-312 | The session, reply, 2FA lists and code store are `EmailStep` of the old state. When the administrator is asked, the request is recorded and the bound buttons are sent; otherwise the registry and the CSRF maps are unchanged. The registry is saved once exactly when the administrator is asked about a user not already pending |
| `Bot.HandleTextMessage` | bot.py:181-351 | The stripped message is checked for length, then for a request slot; a refusal at either step returns with the session unchanged. Otherwise the PIN branch, the e-mail-code branch or the idle reply runs, each as its specification says, and the other state is unchanged. The registry is saved once exactly when the administrator is asked about a user not already pending |
| `Bot.AfterFirst` | bot.py:611 | `split(c, 1)[1]`: the text is the part before the first `c`, then `c`, then the result |
| `Bot.MenuCommandOf` | bot.py:611 | The command of a "cmd_" button is the text after "cmd_" |
| `Bot.MenuCommand` | bot.py:611 | Without '_' the data itself; with one, the text after the first '_' |
| `Bot.Classify` | bot.py:926-935 | A menu route exactly for "cmd_", with the command after it; the admin route exactly for "approve_" or "deny_" |
| `Bot.CmdIsNotDecision` | bot.py:926-935 | Data starting "cmd_" starts neither "approve_" nor "deny_", so the test order does not matter |
| `Bot.Gate` | bot.py:913-925 | Data without a token part is refused as a security error. Passing means a non-empty action bound with the clicker's live token |
| `Bot.GateRoundTrip` | bot.py:913-925 | A non-empty action bound with the clicker's live token passes; bound with any other token it is refused |
| `Bot.HandleCallbackQuery` | bot.py:904-935 | A refused gate changes nothing else. "cmd_request_access" sets the PIN wait and clears the code wait. Approve / deny runs the corrected admin handler; every other action is dispatched untouched. The CSRF maps change only by deleting the clicker's expired token. The registry is saved once exactly when the admin handler approves or denies |
| `KeePass.EscapeHtml` | keepass_handler.py:305-308 | Per-character escaping of `&`, `<` and `>`; the result is HTML-safe and empty exactly for empty input |
| `KeePass.EscapeCharsSafe` | keepass_handler.py:305-308 | Escaped text has no `<` or `>`, and every `&` in it begins `&amp;`, `&lt;` or `&gt;` |
| `KeePass.EscapeSequential` | keepass_handler.py:305-308 | The three chained `replace` calls, in that order, equal per-character escaping |
| `KeePass.UnescapeEscape` | keepass_handler.py:305-308 | Escaping loses nothing: unescaping gives back the original text |
| `KeePass.StrengthScore` | keepass_handler.py:412-437 | One point per condition (at least 8, at least 12, upper, lower, digit, special): between 0 and 6 |
| `KeePass.ScoreMonotone` | keepass_handler.py:412-437 | Appending characters never lowers the score |
| `KeePass.LevelExtremes` | keepass_handler.py:425-437 | Twelve or more characters with all four classes is strong; fewer than eight with at most two classes is weak |
| `KeePass.Level` | keepass_handler.py:425-437 | Weak up to 2 points, medium for 3 and 4, strong for 5 and 6; see `KeePass.LevelMonotone` |
| `KeePass.LevelMonotone` | keepass_handler.py:412-437 | Appending characters never lowers the level |
| `KeePass.PasswordStrength` | keepass_handler.py:412-437 | The level name and the length of the rated text; see `KeePass.PasswordStrengthReports` |
| `KeePass.PasswordStrengthReports` | keepass_handler.py:432-437 | The text is the level name and the length in parentheses, and that length reads back as the length of the rated text |
| `KeePass.PasswordLinesAsWritten` | keepass_handler.py:326-331 | As written, the quality line rates the escaped password |
| `KeePass.PasswordLines` | keepass_handler.py:326-333 | Corrected: the escaped password is shown but the unescaped one is rated; a missing password gives the "not set" line |
| `KeePass.EscapedStrengthAsWritten` | keepass_handler.py:326-331 | For the password "<<" the rating as written differs from the corrected one |
| `KeePass.PasswordLinesRateThePassword` | keepass_handler.py:326-333 | The corrected quality line rates the password itself, and the shown text unescapes to the password |
| `KeePass.EntryLines` | keepass_handler.py:291-366 | The card in order: the escaped title, the rule, the user line, the password lines, the URL line, the notes lines, the expiry line, and a group line exactly when the group is non-empty; see the line functions below |
| `KeePass.TitleLine` | keepass_handler.py:313-315 | The title escaped, in bold |
| `KeePass.UserLine` | keepass_handler.py:319-323 | The escaped username as code, or the not-set marker exactly when the username is empty |
| `KeePass.UrlLine` | keepass_handler.py:336-340 | The escaped URL, or the not-set marker exactly when it is empty |
| `KeePass.NotesLines` | keepass_handler.py:343-352 | Non-empty notes: the label, then the notes cut to 300 and escaped, in italics; empty notes: the label and the not-set marker |
| `KeePass.ExpiryLine` | keepass_handler.py:355-359 | The escaped expiry time, or the not-set marker when there is none |
| `KeePass.GroupLines` | keepass_handler.py:362-364 | One escaped group line for a non-empty group, none otherwise |
| `KeePass.EntryLinesLayout` | keepass_handler.py:291-366 | Where each part of the card sits in the joined list |
| `KeePass.FormatEntryForDisplay` | keepass_handler.py:291-366 | "Entry not found" for no entry, otherwise the card of `EntryLines` joined by line feeds |
| `KeePass.CardFieldsReadBack` | keepass_handler.py:313-364 | Every field reads back from its card line as the raw field: the title, and the user name, URL, expiry and group after their labels, with the not-set marker read as the empty field |
| `KeePass.NotesShown` | keepass_handler.py:343-352 | Notes are shown at most 300 characters long, cut to 297 and "..." when longer, and escaping them loses nothing |
| `KeePass.GroupPathOf` | keepass_handler.py:368-400 | No group gives "". A group with a non-empty path list or path text gives that path joined with "/", less a leading "Root/", even when this is empty. Otherwise the group name, or "" when the name is empty or "Root" |
| `KeePass.EmptyPartIsAPath` | keepass_handler.py:383 | A path list holding one empty part is still a path: the result is "", whatever the name |
| `KeePass.GroupPathDropsRoot` | keepass_handler.py:383-396 | A path under "Root" is joined with "/" without "Root/", and a group named "Root" gives "" |
| `KeePass.Filter` | keepass_handler.py:138-151 | Never longer than the input |
| `KeePass.FilterMembers` | keepass_handler.py:138-151 | The kept entries are exactly the entries that match |
| `KeePass.FilterConcat` | keepass_handler.py:138-151 | Filtering works piecewise, so the kept entries stay in their original order |
| `KeePass.Records` | keepass_handler.py:155-180 | One record per entry, in order |
| `KeePass.FilterEntries` | keepass_handler.py:138-180 | The loop returns the records of exactly the matching entries, in order: title, username, URL or notes for a search, the group path for a group search |
| `KeePass.SearchExactly` | keepass_handler.py:138-151 | A search keeps exactly the matching entries, and in order |
| `KeePass.EntryMatches` | keepass_handler.py:145-151 | The query, lower-cased, occurs in a non-empty title, username, URL or notes, lower-cased |
| `KeePass.GroupMatches` | keepass_handler.py:201-208 | The query, lower-cased, occurs in the lower-cased group path |
| `KeePass.SearchIgnoresCase` | keepass_handler.py:145-208 | Both tests ignore the case of the query; an empty query matches every entry with a non-empty field, and every entry in a group search |
| `KeePass.ShouldReconnect` | keepass_handler.py:55-86 | The file exists, the interval has passed and the file is newer or its time unknown; `KeePass.KeePassHandler.CheckAndReconnect` acts exactly on it |
| `KeePass.KeePassHandler.constructor` | keepass_handler.py:18-34 | Connected to the opened file, with its modification time, and a 300-second interval |
| `KeePass.KeePassHandler.Reconnect` | keepass_handler.py:88-102 | Reopening loads the file's entries and time; a failure is swallowed and leaves the handler disconnected |
| `KeePass.KeePassHandler.ForceReconnect` | keepass_handler.py:104-116 | Reconnects and reports true even when reopening failed; connected exactly when the file opened |
| `KeePass.KeePassHandler.CheckAndReconnect` | keepass_handler.py:55-86 | Reconnects, and answers true, exactly when the file exists, the interval has passed and the file is newer (or its time unknown); otherwise nothing changes |
| `KeePass.KeePassHandler.SearchEntries` | keepass_handler.py:118-186 | Reconnects exactly when `ShouldReconnect` of the old state, with the same effect as `CheckAndReconnect`; then the records of the matching entries when connected, none otherwise |
| `KeePass.KeePassHandler.SearchEntriesByGroup` | keepass_handler.py:188-236 | The same reconnect effect, then the records of the entries whose group path matches |

## Left out

- SMTP delivery (email_auth.py:129-153) is the boolean `delivered`. Random generation (`_generate_code`, `secrets.token_urlsafe`) is the `code` / `token` argument; the token must be URL-safe, so it has no '|'.
- JSON loading and saving (auth.py:29-46, email_auth.py:33-50) is left out. `AuthManager` counts its saves in `saves`, so the contracts say when the source writes the file. `Email2FA` starts from the loaded store as given, which need not be well formed.
- Telegram I/O is left out: message texts, `InlineKeyboardMarkup` objects, notifications to the requester and the asynchronous event loop. Replies are tags, keyboards are sequences of buttons, and the model is sequential.
- logger.py only logs and is not part of this model.
- Clock details are left out: `time.time()` floats, `datetime` parsing and the `int()` truncation of the wait time. Time is integer seconds. An expiry stamp that does not parse is `None`, which counts as expired.
- Text is ASCII only: `strip`, `lower`, `isupper` and `isdigit` are modelled on ASCII characters, with no full Unicode semantics.
- Zero limits and windows are excluded by `requires limit >= 1` / `window >= 1` on the rate-limiter members. With a zero limit the source calls `min` on an empty list and fails.
- The send / verify / resend wrappers in auth.py (auth.py:82-139) only forward to `Email2FA`, and the bot calls `Email2FA` directly.
- `process_search_query`, `process_group_query` and the callback handlers after the approve / deny branch (entries, pages, removal, user pages, back) are left out. `Bot.HandleCallbackQuery` reports them as `Dispatched(route)` in the order the source tests the prefixes.
- The menu rendering of `handle_menu_callback` other than `request_access` is left out, as are `start`, `help`, `menu`, `admin`, `list`, `group`, `reconnect` and `main`.
- pykeepass and the file system are arguments: `db` for opening and `fileExists` / `currentModified` for `os.path`. A failure to open in the constructor is an exception and is not modelled.
- `get_entry_by_uuid` and `get_all_entries` (keepass_handler.py:238-289, 439-476) convert pykeepass objects to dictionaries and are not modelled. The entry text starts from an `EntryRecord` that already holds those fields.
- `strftime` formatting of the entry's dates is kept as given text.
- `KeePass.KeePassHandler.IsConnected` is the field `connected` itself, which stands for `kp is not None`.
- `Bot.HandleCallbackQuery` runs the corrected approve / deny handler (Finding 1). The handler as written is `Auth.AuthManager.HandleAdminCallbackAsWritten`.
- `KeePass.FormatEntryForDisplay` builds its password lines with the corrected `PasswordLines` (Finding 2). The lines as written are `KeePass.PasswordLinesAsWritten`.
- `KeePass.EntryLines`: its quality line rates the password itself, the corrected line of Finding 2, not the escaped text that keepass_handler.py:326-331 rates. The icon is the fixed "🔑" and the title is always present, because every record the handler builds sets both (keepass_handler.py:171-178).
- `Text.ParseInt` and `Auth.ParseDecision` read ASCII digits only, and skip only the ASCII blanks `int()` skips: space and tab through carriage return. The separators U+001C to U+001F, which `str.strip` removes, are rejected as `int()` rejects them (`Text.ParseIntRejectsSeparator`). Python's `int()` also accepts other Unicode digits and non-ASCII whitespace; these are not modelled. Signs, surrounding blanks and single underscores between digits are modelled.
- `EmailAuth.Email2FA`: the code store is keyed by the user id as an integer, where email_auth.py:106 and 166 key it by `str(user_id)`. The two agree for every key the bot writes, because `str` is injective on integers. A loaded file with a key that is not the `str` of an integer ("007", "abc") cannot be represented; such a key is never looked up by the source either.

## Findings

| source | as written | input that shows it | evidently intended | confidence | as-written member | corrected member |
|---|---|---|---|---|---|---|
| auth.py:348-422 | `handle_admin_callback` checks only that the CSRF token is the clicker's own and never that the clicker is the administrator (bot.py:933-935 routes to it without a check, while `rm_` and `up_` do check) | a non-admin user `u` who is not yet approved and holds a live token `t` (every keyboard the bot sends them binds one) sends the callback data "approve_u" bound with `t` | only the administrator may approve or deny; anyone else is refused and the registry is unchanged | not executed | `Auth.SelfApprovalAsWritten` | `Auth.SelfApprovalRefused` |
| keepass_handler.py:326-331 | the strength line rates `escape_html(password)` rather than the password, so `&`, `<` and `>` count as longer and as special | the password "<<" is rated as "&lt;&lt;", 8 characters, "Середній (8 символів)" | the password is rated as typed: "Слабкий (2 символів)" | not executed | `KeePass.EscapedStrengthAsWritten` | `KeePass.PasswordLinesRateThePassword` |
