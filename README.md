# Type-C messenger: a verified model of the client core

Type-C is a browser client for the Matrix chat protocol. All of its logic
lives in the single class `TypeCMessenger` in `app.js`. Most of that class
wires the DOM to matrix-js-sdk. Inside it are a handful of deterministic
pieces, and this project restates each one in Dafny and proves what it
promises:

- **The message view.** The `#messages-container` is modelled as a
  sequence of entries (event id, transaction id, placeholder flag, body,
  ADMIN badge, attachment). `addMessageToTimeline` finds the existing
  entry by event id, else by transaction id. It either leaves the view
  alone or removes that entry and appends the new one. `loadRoomMessages`
  folds the same upsert over the room timeline (module `Timeline`, class
  `Timeline.Timeline`).
- **Rooms.**
  - The DM classifier `isDMRoom`, which follows the Direct Messaging
    module of the Matrix Client-Server API (`m.direct` account data).
  - Its companions `markRoomAsDirect` and `findExistingDM`.
  - The room-list filters, the unread badge and the last-message preview.
  - The gate of `showNotification` (module `Rooms`).
- **The holiday feed.** `parseICS` implements a subset of RFC 5545:
  - line unfolding (section 3.1);
  - VEVENT blocks (section 3.6.1);
  - DTSTART (section 3.8.2.4);
  - yearly RRULE (section 3.8.5.3);
  - TEXT unescaping (section 3.3.11).

  Module `IcsText` holds the lexical layer and module `Ics` the block
  parser. Module `Calendar` holds the date keys, the de-duplicating lookup
  and `changeMonth`.
- **Recent rooms.** The bounded most-recently-used list behind
  `trackRecentRoom` (class `Recent.RecentRooms`).
- **The PIN lock.**
  - The buffer, the four modes and the stored hash.
  - The 32-bit `hashPasscode` (module `Passcode`, class
    `Passcode.PasscodeLock`).
- **Helpers.**
  - `escapeHtml` (module `Html`).
  - User-id completion and localparts, and room-alias sanitising (module
    `Ids`).
  - Member roles and kick/ban/promote rights (module `Members`).
  - The upload msgtype and the image test (module `Media`).
  - JavaScript string built-ins over `seq<char>` (module `Text`).

Conventions:

- **Missing values.** An id or text the source tests for truthiness is a
  `string`, and `""` stands for "absent". A value the source treats as
  nullable is an `Option`.
- **SDK getters become parameters:**
  - the room's member counts, name state, power levels and timeline;
  - the `m.direct` content;
  - the current room and window focus;
  - the fetched feed.
- **Timers.** A callback that runs after a `setTimeout` is a separate
  operation the caller invokes. `checkPasscode` is the main case.
- **Classes.** Where the source updates fields in place, the model keeps
  one small class per component. Each class method is proved against the
  specification function that the lemmas speak about.

## Model

| member | source | states |
|---|---|---|
| Html.EscapeHtmlRoundTrip | app.js:3044-3052 | decoding the five entities undoes `escapeHtml` for every string, so no text is lost or altered |
| Html.EscapeHtmlIsInert | app.js:3044-3052 | the escaped text contains no `<`, `>`, `"` or `'`, so it cannot open a tag or leave an attribute |
| Html.EscapeHtmlIsPerChar | app.js:3046-3051 | the five chained global replacements, `&` first, equal escaping each character independently (no double escaping) |
| Html.EscapeHtmlOfChar | app.js:3047-3051 | each special character maps to its entity and every other character to itself |
| Html.ReplaceCharConcat | app.js:3047 | a global single-character replace distributes over concatenation |
| Ids.CompleteUserId | app.js:1771-1772 | the completed id starts with `@` and contains a `:` (a server part) |
| Ids.NormaliseUserId | app.js:1766-1772 | nothing to invite exactly when the trimmed input is empty; otherwise a full `@user:server` id |
| Ids.NormaliseUserIdIdempotent | app.js:1766-1772 | normalising an already normalised id changes nothing |
| Ids.BeforeColon | app.js:498 | `split(':')[0]` is the longest colon-free prefix, the whole string when there is no colon |
| Ids.Localpart | app.js:496-498 | the registration localpart has no colon, and a plain name passes through unchanged |
| Ids.SenderFallbackName | app.js:1979 | the fallback sender name contains no colon |
| Ids.FallbackNameIsLocalpart | app.js:1977-1980 | for an `@user:server` id the fallback name equals the registration localpart |
| Ids.LocalpartOfNormalised | app.js:1766-1772 | the localpart of a normalised plain name is that name again |
| Ids.SanitiseAlias | app.js:1727 | the alias keeps only `a-z` and `0-9` and is never longer than the name |
| Ids.SanitiseAliasIdempotent | app.js:1727 | sanitising twice equals sanitising once |
| Ids.SanitiseAliasKeepsAlnum | app.js:1727 | a name of ASCII letters and digits is only lower-cased |
| Ids.PublicRoomAlias | app.js:1727-1730 | an alias is requested exactly when the sanitised name is longer than three characters |
| Members.MyPowerLevel | app.js:1807-1809 | the users entry, else `users_default`, else 0 |
| Members.RoleOf | app.js:1816 | Admin iff level ≥ 100, Mod iff 50 ≤ level < 100, Member otherwise |
| Members.RoleMonotone | app.js:1816 | a higher power level never gives a lower role |
| Members.MemberActions | app.js:1823-1827 | kick/ban/promote each iff not oneself, own level ≥ the threshold and above the member's, promote only below 100 |
| Members.NoActionOnPeers | app.js:1824-1826 | no action is offered on a member of equal or higher level |
| Members.NoPromotionOfAdmins | app.js:1826 | an Admin is never offered promotion |
| Members.DefaultsOfferNothing | app.js:1805-1812 | a room without a power-levels event gives a user of level 0 no actions over anyone of level ≥ 0 |
| Media.AttachmentOf | app.js:1224-1241 | image loader iff image and some URL, else file loader iff `m.file` with a URL; the loader's mxc is the URL the code picks |
| Media.UploadMsgtype | app.js:2170-2180 | `m.image` iff the MIME type is `image/*` or the lower-cased name has an image extension; else `m.video` iff `video/*` or a video extension; else `m.audio` iff `audio/*` or an audio extension; `m.file` otherwise |
| Media.UploadRendersAs | app.js:2173-2190 | an uploaded image renders with the image loader and a generic file with the file loader; video and audio get no loader |
| Timeline.RenderedEntry | app.js:1173-1215 | the entry carries the event's ids; placeholder iff still encrypted (as written: iff encrypted and failed); ADMIN only in rooms over two members and only for Mod or Admin roles (corrected; see Findings) |
| Timeline.QuerySelectorFrom | app.js:1155-1156 | the first entry holding the attribute value, or none |
| Timeline.FindExistingPrefersEventId | app.js:1154-1156 | an entry showing the event id is always found first; nothing is found iff neither id matches |
| Timeline.RemoveAt | app.js:1279-1282 | removal shifts the later entries down by one and keeps all others |
| Timeline.UpsertReplacesMatch | app.js:1158-1284 | no match: the new entry is appended; a no-op match: unchanged; otherwise the match is removed, the new entry is last and the rest keep their order |
| Timeline.UpsertKeepsIdentity | app.js:1147-1284 | the upsert keeps event ids unique and afterwards shows the event's id |
| Timeline.UpsertIdempotent | app.js:1158-1163 | delivering the same decrypted event twice changes the view once |
| Timeline.LocalEchoResolves | app.js:1155-1156 | a local echo is appended, and the remote copy with the same transaction id replaces it in place of a second entry |
| Timeline.DecryptionReplacesPlaceholder | app.js:1159-1215 | an encrypted entry is a placeholder, and the decrypted event with the same id replaces it with the decrypted body, nothing else moving (corrected; see Findings) |
| Timeline.PendingDecryptionStaysLocked | app.js:1213-1215 | as written, an event shown while decryption is pending is no placeholder, so the decrypted event is dropped and the lock notice stays |
| Timeline.LoadedUnique | app.js:1125-1138 | the loaded view has unique event ids, and without transaction ids it shows every message event's id |
| Timeline.UpsertKeepsWithoutTxn | app.js:1155-1166 | an event without a transaction id never removes an entry showing a different id |
| Timeline.LoadedCleanTimeline | app.js:1125-1138 | a timeline of distinct, remote events loads as one entry per message or encrypted event, in timeline order |
| Timeline.MessagesAppend | app.js:1128-1130 | the filter keeps exactly the message and encrypted events, in order |
| Timeline.RenderAllIds | app.js:1208-1209 | rendered entries carry their events' ids position by position |
| Timeline.Timeline.AddMessageToTimeline | app.js:1147-1292 | the container becomes the upsert of the old one and keeps unique event ids (corrected; see Findings) |
| Timeline.Timeline.LoadRoomMessages | app.js:1113-1145 | no room: unchanged; otherwise cleared and rebuilt by the upsert fold (corrected; see Findings) |
| Rooms.IsDMRoom | app.js:1467-1496 | any `m.direct` listing makes a DM regardless of members and name; otherwise a DM iff joined + invited ≤ 2 and no name |
| Rooms.ClassifierCases | app.js:1479-1493 | an unnamed pair or member-plus-invitee is a DM; a named pair or five members is a group |
| Rooms.MarkedDirect | app.js:1673-1681 | the user's list gains the room once (created if missing); other users' lists are untouched |
| Rooms.MarkRoomAsDirect | app.js:1671-1685 | the account data sent is that update |
| Rooms.MarkedRoomIsDM | app.js:1673-1681 | once marked the room classifies as a DM, earlier DMs stay DMs, and marking again changes nothing |
| Rooms.FindExistingDM | app.js:1658-1669 | the first DM room in list order that the user has joined, or none iff there is no such room |
| Rooms.TabRooms | app.js:911-931 | the tab shows joined or invited rooms only, DMs on the `dms` tab and the rest elsewhere |
| Rooms.TabsPartition | app.js:925-931 | every listed room appears on exactly one of the two tabs |
| Rooms.BadgeRule | app.js:971-976 | the open room never shows a badge; another room shows one iff it has unread messages |
| Rooms.GetLastMessage | app.js:1000-1015 | the preview of the last message or encrypted event, its fallback text when it has no body, 'Нет сообщений' when there is none |
| Rooms.ShouldNotify | app.js:2592-2595 | never for one's own events; otherwise unless the event's room is open and the window has focus |
| Rooms.NotificationCases | app.js:2591-2595 | silent for the open focused room; notifies for another room, for a background window and with no room open |
| IcsText.UnfoldFolded | app.js:2944 | unfolding a CRLF-plus-space folded line gives back the unfolded text |
| IcsText.UnfoldPlain | app.js:2944 | text without line breaks passes through unfolding unchanged |
| IcsText.SplitLines | app.js:2945 | at least one line and no line contains a line feed |
| IcsText.SplitJoined | app.js:2945 | splitting lines joined by CRLF or LF gives the lines back |
| IcsText.UnescapeEscapeText | app.js:2949-2957 | the one-pass TEXT decoding inverts the section 3.3.11 encoding |
| IcsText.CleanValue | app.js:2949-2957 | the cleaned value is trimmed (corrected; see Findings) |
| IcsText.EscapedBackslashBeforeN | app.js:2952-2955 | the written replacement order turns an escaped backslash before `n` into a backslash and a line break; the one-pass decoding keeps `\n` |
| IcsText.FirstDigitRunFrom | app.js:2988 | the leftmost index where eight digits start, or none when there is no such run |
| IcsText.DateOf | app.js:2987-2989 | the date is eight digits taken from the value; none iff the value has no run of eight digits |
| Ics.MmddOf | app.js:2974 | `slice(4)` of an eight-digit date is its last four characters, never the date itself |
| Ics.Closed | app.js:2962-2979 | a block with date and summary is appended under its date, and under its month and day iff yearly; other keys untouched; an incomplete block changes nothing |
| Ics.Property | app.js:2980-2996 | the first matching prefix decides: DTSTART sets the date when it has eight digits, RRULE marks yearly on `FREQ=YEARLY`, SUMMARY or DESCRIPTION takes the cleaned value, each changing only that field; any other property leaves the draft as it was (corrected; see Findings) |
| Ics.IgnoredLines | app.js:2980-2982 | lines outside a block, and lines without a colon inside one, change nothing |
| Ics.EndOfBlock | app.js:2962-2979 | an END line closes the block and files it as `Closed` says |
| Ics.RunWellFormed | app.js:2959-2998 | whatever the feed, keys are 8 or 4 digits and every filed holiday has a summary, both texts trimmed |
| Ics.ParsedKeys | app.js:2941-3000 | the same for the dictionary `parseICS` returns |
| Ics.FileHoliday | app.js:2963-2978 | the pushes equal `Closed` |
| Ics.ReadProperty | app.js:2981-2996 | the property branches equal reading the line into the draft |
| Ics.ParseIcs | app.js:2941-3000 | the loop computes the fold of the line step over the unfolded, split feed |
| Calendar.IntString | app.js:2793 | a non-negative year prints as its decimal digits |
| Calendar.DateKeyShape | app.js:2793-2796 | a real date's key is 8 digits that read back as year, month and day, whose last four are the yearly key, and that the DTSTART reader takes whole |
| Calendar.TwoDigitsShape | app.js:2795 | `padStart(2, '0')` of a number below 100 is two digits denoting it |
| Calendar.Dedup | app.js:2807-2812 | the result holds exactly the input's holidays, each once (corrected; see Findings) |
| Calendar.DedupOrder | app.js:2807-2812 | results appear in the order of their first occurrences |
| Calendar.DedupOfDistinct | app.js:2800-2812 | a list without repeats, such as exact dates then yearly ones, passes unchanged |
| Calendar.UniqueHolidays | app.js:2805-2812 | the loop with its `seen` set computes `Dedup` |
| Calendar.BarKeyCollision | app.js:2807 | as written, two different holidays whose texts joined with a bar coincide are merged into one |
| Calendar.Shifted | app.js:2826-2836 | the month always lands in 0..11 and moves by the delta when no year boundary is crossed |
| Calendar.MonthSteps | app.js:2826-2836 | one step either way moves the calendar by exactly one month across year ends, and the two steps undo each other |
| Calendar.Calendar.ChangeMonth | app.js:2826-2836 | month and year become the shifted pair; the holidays stay |
| Calendar.Calendar.LoadHolidays | app.js:2922-2939 | a fetched feed replaces the holidays with its parse; a failed fetch leaves them |
| Calendar.Calendar.HolidaysFor | app.js:2838-2854 | exact-date then yearly entries, each once; a holiday is listed iff it is filed under either key (corrected; see Findings) |
| Recent.Without | app.js:2727 | the filter keeps exactly the other ids |
| Recent.WithoutConcat | app.js:2727 | filtering works piecewise, so the remaining ids keep their relative order |
| Recent.Tracked | app.js:2725-2728 | an empty id changes nothing; otherwise the id comes first, exactly once, followed by the others in order, at most five in all |
| Recent.TrackedKeepsDistinct | app.js:2725-2728 | the list never holds an id twice |
| Recent.TrackedIdempotent | app.js:2725-2728 | opening the same room again changes nothing |
| Recent.RecentRooms.TrackRecentRoom | app.js:2725-2728 | the field becomes the tracked list and stays within five distinct ids |
| Passcode.ToInt32 | app.js:3174-3175 | the result is a signed 32-bit value congruent to the input modulo 2^32 |
| Passcode.HashIsWrappedPoly | app.js:3170-3179 | the 32-bit fold equals the base-31 polynomial of the code units, wrapped once |
| Passcode.HexRoundTrip | app.js:3178 | `toString(16)` is read back exactly, so distinct magnitudes give distinct hashes |
| Passcode.HashPasscode | app.js:3170-3179 | the shift-and-subtract loop computes `"PIN_"` and the hex of the fold's magnitude |
| Passcode.PinHashValue | app.js:3170-3179 | a four-digit PIN never wraps: its hash is the plain polynomial |
| Passcode.PinHashInjective | app.js:3170-3179 | different four-digit PINs have different hashes |
| Passcode.KeysKeepBuffer | app.js:3104-3120 | input appends one digit below four and is ignored at four; delete drops the last digit; the buffer stays within four digits |
| Passcode.OperationsKeepConsistent | app.js:3073-3234 | every operation keeps the buffer within four digits, and only hashes of four-digit PINs are ever stored (corrected; see Findings) |
| Passcode.UnlockAttempt | app.js:3132-3138 | in unlock mode the stored PIN opens the lock and any other four-digit PIN leaves it locked with the buffer cleared |
| Passcode.EnrolThenUnlock | app.js:3073-3168 | a PIN typed twice in setup is stored with the toggle on; after locking it opens the app and any other PIN does not |
| Passcode.StaleCheckStoresShortPin | app.js:3104-3157 | as written, a delete before the check timer fires lets setup store the hash of three digits, which no four-digit PIN matches |
| Passcode.PasscodeLock.HandlePasscodeInput | app.js:3104-3113 | the buffer gains the digit below four; a check is scheduled iff this digit made four |
| Passcode.PasscodeLock.HandlePasscodeDelete | app.js:3115-3120 | the last digit is removed when there is one |
| Passcode.PasscodeLock.CheckPasscode | app.js:3129-3168 | unlock or shake, setup to confirm, confirm stores or restarts, disable removes or shakes, on a full buffer only (corrected; see Findings) |
| Passcode.PasscodeLock.StartPasscodeSetup | app.js:3073-3087 | setup mode with empty buffer and temporary PIN, overlay shown |
| Passcode.PasscodeLock.DisablePasscode | app.js:3089-3102 | disable mode with an empty buffer, overlay shown |
| Passcode.PasscodeLock.HidePasscodeOverlay | app.js:3186-3191 | overlay hidden, buffer cleared, unlock mode |
| Passcode.PasscodeLock.ShakePasscode | app.js:3193-3201 | the buffer is cleared |
| Passcode.PasscodeLock.UnlockApp | app.js:3181-3184 | the overlay is hidden |
| Passcode.PasscodeLock.CancelPasscodeSetup | app.js:3203-3210 | overlay hidden and the toggle reflects whether a hash is stored |
| Passcode.PasscodeLock.CheckAppLock | app.js:3212-3234 | with a stored hash: unlock mode, empty buffer, overlay shown, toggle on; otherwise nothing |

## Findings

| source | as written | input that shows it | evidently intended | confidence | as-written member | corrected member |
|---|---|---|---|---|---|---|
| app.js:1213-1215 | only an encrypted event whose decryption has failed is marked `data-placeholder` | an `m.room.encrypted` event shown while its decryption is still pending, then the decrypted event with the same id from the `Event.decrypted` listener (app.js:831-837) | every element still showing an encrypted event is a placeholder, so the decrypted message replaces the lock notice | medium; not executed | Timeline.PendingDecryptionStaysLocked | Timeline.DecryptionReplacesPlaceholder |
| app.js:2952-2955 | four global replacements in sequence, `\n` first | the TEXT value `\\nb` (an escaped backslash, then `nb`) becomes a backslash, a line break and `b` | section 3.3.11 of RFC 5545: decode each escape once, giving `\nb` | high; not executed | IcsText.EscapedBackslashBeforeN | IcsText.UnescapeEscapeText |
| app.js:2807 | de-duplication key `${summary}\|${description}` | holidays (`a\|b`, `c`) and (`a`, `b\|c`) on the same day: the second is dropped | two holidays are the same when summary and description both agree | high; not executed | Calendar.BarKeyCollision | Calendar.Dedup |
| app.js:3104-3157 | `checkPasscode` runs 200 ms after the fourth digit on whatever the buffer then holds | in setup, type 1 2 3 4 and delete before the timer fires, then do the same in confirm: the hash of `123` is stored and no four-digit entry opens the lock | a check acts only on a full buffer of four digits | medium; not executed | Passcode.StaleCheckStoresShortPin | Passcode.OperationsKeepConsistent |

The model uses the corrected behaviour in each case:

- `Timeline.Render` marks every still-encrypted entry as a placeholder.
- `Ics` decodes TEXT values with `IcsText.CleanValue`.
- `Calendar.Calendar.HolidaysFor` de-duplicates by holiday.
- `Passcode.PasscodeLock.CheckPasscode` ignores a buffer that is not full.

The as-written behaviour is kept next to each correction:

- `Timeline.RenderAsWritten`;
- `IcsText.CleanValueAsWritten`;
- `Calendar.DedupByKeyAsWritten`;
- `Passcode.CheckAsWritten`.

## Left out

- Login, registration, auto-login, `startClient`, crypto initialisation and the sync and timeline listener wiring (app.js:450-859): SDK calls and local storage. The listener bodies appear only as the operations they call.
- The media loaders `loadAuthenticatedImage`, `loadAuthenticatedFile` and `loadAuthenticatedAvatar` (app.js:2004-2151, app.js:2258-2310). They are fetch, Blob and object-URL code with asynchronous retries. The model stops at which loader an entry gets and with which mxc URL.
- `markAsRead` (app.js:3002-3042): awaited SDK receipt calls.
- DOM construction, modals, toasts, the Notification API, theme, matrix rain and scrolling.
- Timers. Each `setTimeout` callback is an operation the caller runs, `checkPasscode` included.
- Dates and locales: `formatTime`, the summary widgets, and the first weekday and month length in `renderCalendar`. The month is a parameter and the day keys are formed from given numbers.
- Randomness: `renderQuote` and the random avatar element ids.
- Unicode case mapping. `toLowerCase` is restricted to ASCII letters in alias sanitising and in the extension tests.
- Exceptions. An `addMessageToTimeline` or `loadRoomMessages` that throws on a malformed SDK object leaves the view as it was; the model has no malformed objects.
- The `setAccountData` failure in `markRoomAsDirect` is only logged. The model returns the index it would send.
- The earlier `startPasscodeSetup`…`checkPasscode` at app.js:2367-2486 and the DOM-based `escapeHtml` at app.js:2153. Later definitions in the class body replace them.
- The room-list display name of an unnamed DM (app.js:954-960) and the search and member dialogs beyond the rules above.
- Passcode.HashPasscode: characters are Unicode scalar values, whereas `charCodeAt` reads UTF-16 code units. The two agree on the keypad digits and on every character of the Basic Multilingual Plane.
- Calendar.MonthSteps: stated for steps of one month, the only steps the calendar buttons make. A larger delta across a year end lands on January or December, as the code does.
- Calendar.Calendar: the initial month and year come from the clock and are constructor parameters.
- Passcode.PasscodeLock.constructor: the stored hash is a parameter read from local storage, and the overlay and settings toggle start hidden and off.
