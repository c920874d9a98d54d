# assay: session cookies, device binding, settings and their text forms

assay is an OpenID Connect provider made of an `api` service, which owns the database, and a `web` service,
which owns the browser. This project models the parts of it whose correctness spans functions, services or
whole runs, and proves what they are for. `dafny verify dfyconfig.toml` checks all of it.

- **Device-bound SSO sessions** (`SessionStamp`, `SessionKeyCache`, `SessionKey`, `SessionKeyRuns`,
  `SessionKeyReplies`, `SessionKeyPossession`, `SessionKeyBrowser`). Stateless challenges and 600-second short
  cookies are stamps: a time with a MAC. Web remembers for 60 seconds, in a bounded cache, whether api has bound a
  session, and a middleware removes the long SSO cookie from requests of bound sessions that carry no valid short
  cookie. A run is any list of moves: clocks advance, requests arrive, api answers when it likes, answers are used
  later. The theorems hold for every run.
- **Session cookies** (`Cookies`, `CookieDomain`, `BrowserJar`, `DisplayPreferences`, `DeviceObservation`). Cookies are
  issued, renamed, stripped, overwritten and recognised as text. The browser's store is modelled by section 5 of
  RFC 6265, with the `__Host-` rule of section 4.1.3.2 of RFC 6265bis. A header is a string; `to_str` succeeds on
  visible ASCII and tabs.
- **The DER writer** (`Der`, `DerTree`, `OctetOrder`, `KeyDescription`, `AttestedKey`), against a reader made from
  sections 8, 10 and 11 of X.690.
- **The authentication-policy text form** (`AuthenticationPolicyForm`): parser and printer undo each other, because
  what the form cannot print is lost on save.
- **Layered settings** (`Settings`, `SettingsRuns`): the table, api's start-up snapshot and the values web fetched,
  over every run of saves, starts, stops and fetches.
- **The log forwarder and the pager** (`Forwarder`, `Pagination`).
- `Wrappers`, `Text`, `Numerals` and `Sequences` hold what the Rust and Python library calls mean.

Code that changes state in place is a class or a method with its loop; each is proved equal to a specification
function, and the theorems are about that function. Code that computes values is functions.

Where the code does not do what its documentation says, the code is modelled and the exact condition proved:

- A challenge whose age, or a short cookie whose time left, does not fit an `i64` wraps around and passes
  (`SessionStamp.ChallengeWindow`, `AncientChallengeIsFresh`, `BoundCookieWindow`, `DistantCookieIsValid`); with times
  since 1970 neither happens.
- `is_pending_restart` stays raised for an empty override (`Settings.PendingIffDiffers`,
  `EmptyOverrideStaysPending`); the settings page filters those out, so there the flag is exact
  (`Settings.PendingShownIsExact`).
- `enumerated` assumes a two-octet header and is wrong from 128 content octets on (`Der.EnumeratedIsInteger`,
  `LargeEnumeratedIsWrong`).
- A request whose Cookie header has one octet outside visible ASCII reads as having no cookies
  (`BrowserJar.SecureSessionReads`, `UnreadableCookieHidesSession`).
- A local cookie under the SSO session's name is taken for a sign-in (`DeviceObservation.SignInsAreSessions`,
  `BorrowedNameIsSeen`), and a session value that does not survive the header is not reported
  (`DeviceObservation.ObserverFindsFirstSignIn`).
- The last tests of `parse_days` (an empty list) and of the forwarder's loop (a batch left over when the senders are
  gone) can never fire.

## Model

| member | source | states |
|---|---|---|
| `SessionKeyRuns.LongCookieAloneStopsWorking` | crates/web/src/session_key.rs:366-419 | In every run, a request that arrives 60 s plus the cache delay after api bound its session, on a guarded path and without a valid short cookie, reaches the handler without the SSO cookie and with every other cookie as it was |
| `SessionKeyRuns.BoundIsExact` | crates/web/src/session_key.rs:389-418 | For every delay and every request that shows the long cookie alone, a run exists in which that request is accepted one nanosecond before 60 s plus the delay |
| `SessionKeyBrowser.BoundIsReached` | crates/web/src/session_key.rs:389-418 | Under every policy and for every session a Cookie header can carry, there are such a request and such a run: no bound smaller than 60 s plus the delay holds |
| `SessionKeyRuns.OnlyBoundSessionsAreStripped` | crates/web/src/session_key.rs:371-418 | In every run, a handler loses the SSO cookie only on a guarded path, without a valid short cookie, and for a session api has bound or when api could not be asked |
| `SessionKeyRuns.ShortCookiesFollowBinding` | crates/web/src/session_key.rs:212-320 | In every run, an unforged short cookie valid for a session now was issued for that session less than 600 s ago, in a reply that follows api answering that this very session is bound |
| `SessionKeyRuns.FreshCookiePasses` | crates/web/src/session_key.rs:371-388 | A request that presents the short cookie of any such reply within its 600 s passes the guard with its cookies untouched, without asking api |
| `SessionKeyBrowser.BoundBrowserPasses` | crates/web/src/session_key.rs:113-200 | Over HTTPS, in every run: once a browser, whatever any sites made it store before, has stored the cookies of a reply to a bound session, its next guarded request passes the guard at once with the SSO session readable, as long as both cookies last and its Cookie header is readable |
| `SessionKeyRuns.StepKeeps` | crates/web/src/session_key.rs:212-419 | Every step of the protocol keeps the invariant that ties cache entries, pending calls and delivered requests to what api has bound and when |
| `SessionKeyRuns.RunKeeps` | crates/web/src/session_key.rs:212-419 | Every run, of any length and interleaving, keeps that invariant |
| `SessionKeyPossession.LateRequestsProveTheKey` | crates/web/src/session_key.rs:366-419 | In every run, a guarded request that arrives 60 s plus the cache delay after its session was bound, and still reaches its handler with the SSO cookie, carried a valid short cookie; unless that was forged, web had issued it less than 600 s before, for this session, after api answered that the session is bound |
| `SessionKeyReplies.RepliesRevealExactly` | crates/web/src/session_key.rs:83-364 | In every run, the stamps in the texts of a reply (its short cookie, its challenge, its registration's challenge) are exactly the ones the hypothesis on forgery counts as revealed |
| `SessionKeyReplies.StampText` | crates/contracts/src/session_key.rs:57-64 | A stamp holds no character that ends a cookie's value or a quoted string |
| `SessionKey.StripReads` | crates/web/src/session_key.rs:422-440 | Stripping makes the SSO session unreadable and leaves every other cookie reading as before, for every list of Cookie headers |
| `SessionKeyCache.SessionKeyCache.Get` | crates/web/src/session_key.rs:47-53 | The answer is the unexpired entry for the key in the map that the history of puts leaves behind |
| `SessionKeyCache.SessionKeyCache.Put` | crates/web/src/session_key.rs:55-66 | A put evicts expired entries at 10,000, everything if that does not help, and then records the answer with the current time; the map stays the replay of the history |
| `SessionKeyCache.SessionKeyCache.MarkBound` | crates/web/src/session_key.rs:69-71 | A registered session answers as bound at once |
| `SessionKeyCache.LatestIsLatest` | crates/web/src/session_key.rs:55-66 | The reference map holds, for every key, the last put for it |
| `SessionKeyCache.ReplayWithinLatest` | crates/web/src/session_key.rs:55-66 | After any history the cache holds at most 10,000 entries, all of them latest puts |
| `SessionKeyCache.AnswersAreLatest` | crates/web/src/session_key.rs:47-66 | Any answer is the value of the latest put for that key, made less than 60 s earlier, whatever was evicted |
| `SessionKeyCache.CacheIsExact` | crates/web/src/session_key.rs:41-66 | While fewer than 10,000 answers are young at each put, the bounded cache answers exactly as the unbounded reference map |
| `SessionStamp.ReadStampExactly` | crates/contracts/src/session_key.rs:67-80 | A text is accepted as a stamp of a time exactly when it is a numeral of that time within 20 characters, a dot, and the tag in either letter case; this rests on the XOR and OR fold being byte equality |
| `SessionStamp.FoldDifferenceZero` | crates/contracts/src/session_key.rs:52-54 | The constant-time fold is zero exactly when the accumulator was zero and the strings are equal |
| `SessionStamp.ReadStampOfStamp` | crates/contracts/src/session_key.rs:56-80 | Reading inverts stamping for every i64 |
| `SessionStamp.MessageDetermines` | crates/contracts/src/session_key.rs:57-63 | The MAC's message determines the time and the hash of the session |
| `SessionStamp.StampsDoNotCross` | crates/contracts/src/session_key.rs:39-80 | A stamp read under another purpose or session gives its own time or nothing, and something only where the MAC or the hash collides |
| `SessionStamp.ChallengeWindow` | crates/contracts/src/session_key.rs:83-91 | Over all pairs of i64 times, a challenge is fresh from 5 s before its time to 300 s after it, with the exact exceptions where the clock plus 5 s or the age wraps around i64 |
| `SessionStamp.AncientChallengeIsFresh` | crates/contracts/src/session_key.rs:88-91 | The exception is real: at the epoch a challenge stamped with the smallest i64 is fresh |
| `SessionStamp.BoundCookieWindow` | crates/contracts/src/session_key.rs:94-115 | Over all pairs of i64 times, a short cookie is valid exactly in the 600 s before its expiry or where the time left wraps around i64, which it never does since 1970; its expiry is what the status page shows |
| `SessionStamp.DistantCookieIsValid` | crates/contracts/src/session_key.rs:99-102 | The exception is real: one second before the epoch, the last expiry an i64 can hold is valid |
| `Cookies.CookiePolicy.BindSessionCookieNames` | crates/contracts/src/cookies.rs:125-154 | The loop rebuilds the header exactly when the policy is secure and some pair carries a session name, prefixed or not, and then with every such pair renamed or dropped and the rest in order |
| `Cookies.GetIsLookup` | crates/contracts/src/cookies.rs:42-49 | Reading a cookie over all readable headers is looking its name up in the list of trimmed, nonempty pairs |
| `Cookies.RebuildReads` | crates/web/src/cookies.rs:188-203 | A rebuilt header is always a valid header value and carries exactly the pairs it was joined from |
| `Cookies.BindRequestPairs` | crates/web/src/cookies.rs:176-205 | Behind the middleware the request has exactly the renamed pairs, unchanged requests and empty results included |
| `Cookies.BoundSessionReads` | crates/contracts/src/cookies.rs:119-154 | Over HTTPS a session cookie reads, after binding, exactly as its `__Host-` name read before it |
| `Cookies.BoundOthersRead` | crates/contracts/src/cookies.rs:119-154 | Every name other than the session names reads the same before and after, and the prefixed session names become unreadable |
| `CookieDomain.ValidateCookieDomain` | crates/contracts/src/cookie_domain.rs:26-92 | A domain is accepted exactly when it is a bare, nonempty name, no public suffix, and a proper parent of the host of every origin, all of one scheme; otherwise the error returned is that of the first test that fails, in the order of the code, and one about an origin names the first at fault |
| `CookieDomain.MixedMeans` | crates/contracts/src/cookie_domain.rs:71-71 | Comparing neighbours finds a difference exactly when not all schemes are equal |
| `BrowserJar.ParseOfBuild` | crates/contracts/src/cookies.rs:222-232 | Section 5.2 of RFC 6265 parses the text of every issued cookie into its name, value, age, domain, path and Secure flag |
| `BrowserJar.SessionStored` | crates/contracts/src/cookies.rs:91-101 | Storing the cookies of one `set_session` in order changes the jar as stated: the cookie put in place or removed, and the old names deleted |
| `BrowserJar.ReadsOnly` | crates/contracts/src/cookies.rs:42-49 | A name that at most one sent cookie can have reads as that cookie's value, in whatever order the browser sends cookies |
| `BrowserJar.SecureSessionReads` | crates/contracts/src/cookies.rs:91-154 | Over HTTPS, from every jar that obeys the `__Host-` rule, the next request reads exactly the value just set until its age is over, and nothing after `expire_session`; the exact exception is a Cookie header outside visible ASCII |
| `BrowserJar.UnreadableCookieHidesSession` | crates/web/src/cookies.rs:66-74 | The exception is real: a jar with one more cookie, whose value is outside visible ASCII, makes the session just set read as nothing |
| `BrowserJar.StoreKeepsJar` | crates/contracts/src/cookies.rs:33-36 | Storing any Set-Cookie text from any site keeps what a browser guarantees of its jar, the `__Host-` rule included |
| `BrowserJar.BrowsedSessionReads` | crates/contracts/src/cookies.rs:91-154 | Over HTTPS the round trip holds in every browser that started empty, whatever texts any sites made it store before |
| `BrowserJar.PlainSessionReads` | crates/contracts/src/cookies.rs:91-101 | Over HTTP, for a jar whose cookies of that name all lie at the root path, host-only or under the clean-up domain, the next request reads exactly the value just set until its age is over, if the Cookie header is visible ASCII; and nothing when the clean-up domain is the host itself |
| `BrowserJar.ValidatedDomainIsUsable` | crates/contracts/src/cookie_domain.rs:38-91 | A validated COOKIE_DOMAIN is accepted by the browser for the clean-up on every configured host and is never that host |
| `DisplayPreferences.OverwriteReads` | crates/web/src/display_preferences.rs:224-249 | After the overwrite `lang` reads as the decided tag, other spellings of it are gone, and every other cookie reads as before |
| `DisplayPreferences.HandlerFollowsChain` | crates/web/src/display_preferences.rs:68-152 | What a handler shows is the documented order: query, stored setting of a signed-in user, cookie, ui_locales, Accept-Language, Japanese |
| `DisplayPreferences.LayersRead` | crates/web/src/router.rs:643-780 | Where every cookie a handler can read comes from, through name binding, the device-key guard and the language overwrite together |
| `DeviceObservation.ObserverFindsFirstSignIn` | crates/web/src/device_observation.rs:48-67 | On the headers of any chain of builder operations, with any values under well-formed names, the observer finds exactly the first live value under the SSO cookie's name, or nothing, if and only if that value survives the header: visible ASCII, no semicolon, no white space at its end |
| `DeviceObservation.SignInsAreSessions` | crates/web/src/device_observation.rs:48-67 | The observer reports the first `set_session` of the SSO cookie, and nothing when there is none, if and only if the first operation that puts a live value under its name is that session, with a value that survives the header, or carries its value; the one corner left out, another operation borrowing the name with a value that does not survive, is in ObserverReportsFirstSeen |
| `DeviceObservation.ObserverReportsFirstSeen` | crates/web/src/device_observation.rs:48-67 | For any chain of operations with any values, the observer reports what a header shows of a live value under the SSO cookie's name, for the first operation of which anything shows |
| `DeviceObservation.BorrowedNameIsSeen` | crates/web/src/device_observation.rs:48-67 | The failing case is real: a local cookie under the SSO cookie's name is reported although no session was set |
| `DeviceObservation.ObservedSurvives` | crates/web/src/device_observation.rs:48-67 | Whatever the observer reports, for any headers, is nonempty and survives the header |
| `DeviceObservation.SessionIssues` | crates/contracts/src/cookies.rs:91-108 | One `set_session` is seen as a sign-in by its live cookie alone, for any value; the clean-up cookies sent with it never are |
| `DeviceObservation.OperationIssues` | crates/web/src/cookies.rs:92-169 | One builder operation, with any value, is seen for what it signs in exactly when that value survives the header |
| `DeviceObservation.CrossSiteIssues` | crates/contracts/src/cookies.rs:185-190 | The cross-site cookie's text is seen through its name, value and age alone, for any value |
| `DeviceObservation.PreferenceIssues` | crates/contracts/src/cookies.rs:214-220 | The preference cookie's text is seen through its name, value and age alone, for any value |
| `DeviceObservation.SetCookies.SetSession` | crates/web/src/cookies.rs:103-106 | Appends the session's headers; the headers stay those of the chain of operations |
| `DeviceObservation.SetCookies.ExpireSession` | crates/web/src/cookies.rs:110-113 | Appends the headers that clear a session; the headers stay those of the chain |
| `DeviceObservation.SetCookies.SetLocal` | crates/web/src/cookies.rs:117-121 | Appends one local cookie; the headers stay those of the chain |
| `DeviceObservation.SetCookies.SetPreference` | crates/web/src/cookies.rs:125-131 | Appends one preference cookie; the headers stay those of the chain |
| `DeviceObservation.SetCookies.SetCrossSiteLocal` | crates/web/src/cookies.rs:136-142 | Appends one cross-site cookie; the headers stay those of the chain |
| `DeviceObservation.SetCookies.ExpireCrossSiteLocal` | crates/web/src/cookies.rs:146-150 | Appends the cookie that clears a cross-site cookie; the headers stay those of the chain |
| `DeviceObservation.SetCookies.ExpireLocal` | crates/web/src/cookies.rs:154-158 | Appends the cookie that clears a local cookie; the headers stay those of the chain |
| `Der.ElementReadsBack` | scripts/key-attestation-fixtures.py:36-44 | Every tag and content, followed by anything, is read back exactly when the length needs at most 126 length octets |
| `Der.ReadElementExactly` | scripts/key-attestation-fixtures.py:36-89 | A reader made from X.690 accepts nothing but the writer's octets: tag, length and hence encoding are minimal |
| `Der.OctetCounts` | scripts/key-attestation-fixtures.py:36-48 | The writer's bit arithmetic yields as many octets as a length has digits, and one more for an integer whose leading bit is one |
| `Der.IntegerReadsBack` | scripts/key-attestation-fixtures.py:47-49 | A content reads as a number n >= 0 exactly when it is the writer's: the encoding is correct, minimal and unique |
| `Der.EnumeratedIsInteger` | scripts/key-attestation-fixtures.py:52-53 | `enumerated` carries `integer`'s content exactly while that is under 128 octets |
| `Der.LargeEnumeratedIsWrong` | scripts/key-attestation-fixtures.py:52-53 | The failing case is real: for every power of 256 from the 127th on, `enumerated` writes another content |
| `Der.Context` | scripts/key-attestation-fixtures.py:76-89 | The loop over seven-bit groups writes the identifier octets of section 8.1.2 of X.690 for every tag number |
| `DerTree.TreeReadsBack` | scripts/key-attestation-fixtures.py:36-89 | Every nested value, followed by anything, is read back exactly when every length in it can be expressed |
| `DerTree.NodeReadsExactly` | scripts/key-attestation-fixtures.py:36-89 | Only the canonical encoding of a value is read as that value |
| `DerTree.PrefixFree` | scripts/key-attestation-fixtures.py:36-89 | No value's encoding begins another's |
| `OctetOrder.OrdersAgree` | scripts/key-attestation-fixtures.py:72-73 | Unless one string properly begins the other, Python's order and the zero-padded order of section 11.6 of X.690 agree |
| `KeyDescription.SetOfOrderIsCanonical` | scripts/key-attestation-fixtures.py:72-73 | Of all arrangements of given encodings, `set_of` writes the one and only that is ascending in the order of section 11.6 of X.690 |
| `KeyDescription.SetOfIgnoresOrder` | scripts/key-attestation-fixtures.py:72-73 | A set's encoding does not depend on the order its members are given in |
| `KeyDescription.AuthorizationList` | scripts/key-attestation-fixtures.py:114-115 | Writes the items, sorted by number and octets, each under its tag number |
| `KeyDescription.KeyDescription` | scripts/key-attestation-fixtures.py:118-150 | The appended and reassigned lists come out as the encoding of the described tree, for every combination of options |
| `KeyDescription.ExtensionReadsBack` | scripts/key-attestation-fixtures.py:118-150 | A reader finds exactly the described tree in the extension |
| `KeyDescription.SecurityLevelLosesNothing` | scripts/key-attestation-fixtures.py:137-140 | The multiset of authorization items over both lists is the same at every security level |
| `KeyDescription.ListsBySecurityLevel` | scripts/key-attestation-fixtures.py:136-140 | A software key's hardware list holds the root of trust alone; another key's software list, the application alone |
| `KeyDescription.ListsAscend` | scripts/key-attestation-fixtures.py:114-140 | Both lists are in strictly ascending order of tag number |
| `KeyDescription.EnumeratedInjective` | scripts/key-attestation-fixtures.py:52-53 | No two numbers have the same enumerated content, not even above the short form |
| `AttestedKey.OctetsDetermineTheKey` | scripts/key-attestation-fixtures.py:118-150 | Two descriptions with equal octets agree in every option, up to the order of purposes and digests |
| `AuthenticationPolicyForm.TimeWindowsRoundTrip` | crates/web/src/authentication_policy_form.rs:45-151 | Printing then parsing time windows is the identity exactly for windows with distinct days below 7, minutes up to 1439 and offsets up to 1439 either way; no u16 or i16 overflows |
| `AuthenticationPolicyForm.TimeWindowsReparse` | crates/web/src/authentication_policy_form.rs:45-64 | What was parsed from any text parses again, from its printed form, to the same windows |
| `AuthenticationPolicyForm.ParseTimeWindows` | crates/web/src/authentication_policy_form.rs:45-55 | The loop returns the windows of all lines that are not blank, or the number of the first unreadable line |
| `AuthenticationPolicyForm.ErrorNamesTheFirstUnreadableLine` | crates/web/src/authentication_policy_form.rs:45-55 | The number returned is n exactly when line n, from one, is the first that is neither blank nor a window |
| `AuthenticationPolicyForm.ReadWindowsAreWellFormed` | crates/web/src/authentication_policy_form.rs:66-151 | Every window read has distinct known days and times and offset within a day |
| `AuthenticationPolicyForm.ParseTimeWindow` | crates/web/src/authentication_policy_form.rs:66-86 | One line: days, times, an optional offset that defaults to UTC, and nothing more |
| `AuthenticationPolicyForm.ParseDays` | crates/web/src/authentication_policy_form.rs:107-121 | The loop collects distinct days in order of first mention and fails on any unknown name; its last test never rejects |
| `AuthenticationPolicyForm.DaysAreTheNamedOnes` | crates/web/src/authentication_policy_form.rs:107-121 | A day is read exactly when it is named, and the empty list exactly from `*` |
| `AuthenticationPolicyForm.DaysRoundTrip` | crates/web/src/authentication_policy_form.rs:88-121 | Printing then parsing days is the identity on distinct known days |
| `AuthenticationPolicyForm.HhmmRoundTrip` | crates/web/src/authentication_policy_form.rs:123-135 | Every minute of a day is read back from its printed time |
| `AuthenticationPolicyForm.OffsetRoundTrip` | crates/web/src/authentication_policy_form.rs:137-151 | Every offset within a day, negative ones included, is read back from its printed form |
| `AuthenticationPolicyForm.ListRoundTrip` | crates/web/src/authentication_policy_form.rs:29-40 | Printing then parsing a list of values is the identity exactly when every value is nonempty, trimmed, and free of newlines and commas |
| `AuthenticationPolicyForm.ListReparse` | crates/web/src/authentication_policy_form.rs:29-40 | What was parsed from any text parses again, from its printed form, to the same list |
| `AuthenticationPolicyForm.ListOfSubmitted` | crates/web/src/authentication_policy_form.rs:29-40 | The CRLF line ends a browser submits do not change the list read |
| `AuthenticationPolicyForm.TimeWindowsOfSubmitted` | crates/web/src/authentication_policy_form.rs:45-55 | The CRLF line ends a browser submits change neither the windows read nor the line number of an error |
| `Settings.PendingIffDiffers` | crates/core/src/config.rs:104-116 | The flag is raised exactly for a watched setting whose resolution on the current values differs from the start-up snapshot, or whose current value is an empty override |
| `Settings.EmptyOverrideStaysPending` | crates/core/src/config.rs:104-116 | The exception is real: an empty override keeps the flag raised across restarts |
| `Settings.PendingShownIsExact` | crates/core/src/application/system_settings.rs:433-447 | The settings page compares with overrides that are not empty, and so shows the flag exactly when a restart would change the setting |
| `Settings.SavedIsResolved` | crates/core/src/application/system_settings.rs:451-496 | After a save the next start resolves the trimmed value from the database, or without it if it was cleared; other settings resolve as before |
| `Settings.ServedExactly` | crates/api/src/presentation/handlers/internal_runtime_settings.rs:29-46 | Web is handed exactly the nonempty overrides of shared, database-managed settings that are not secret |
| `Settings.WebFollowsApi` | crates/web/src/config.rs:354-374 | Given what api hands over, web resolves a shared setting to api's value if their environments agree on it |
| `Settings.SharedSettingResolver.OptionalString` | crates/web/src/config.rs:369-375 | Resolves api's value, then the environment, and notes the key exactly when api's value was taken |
| `Settings.StaleSharedSettings` | crates/web/src/config.rs:330-350 | The sorted and deduplicated vector is the strictly ascending list of exactly the keys whose lookups differ |
| `Settings.StaleKeysAreDetermined` | crates/web/src/config.rs:330-350 | That list does not depend on the iteration order of the maps and is empty exactly for equal maps |
| `SettingsRuns.NoCopyRunsAhead` | crates/web/src/lib.rs:46-70 | In every run of saves, starts, stops and fetches, web's values are those of a version no newer than api's, and api's of one no newer than the table's |
| `SettingsRuns.RunKeeps` | crates/web/src/lib.rs:46-159 | Every run keeps the invariant between the three copies, and api's version never goes back |
| `SettingsRuns.FlagsAreExact` | crates/core/src/config.rs:104-116 | In every run the settings page flags exactly the settings a restart of api would now change |
| `SettingsRuns.ApiThenWeb` | crates/web/src/lib.rs:66-70 | Restarting api and then letting web fetch, with no save in between or after, leaves both services with the table's values, no setting flagged and no shared key stale, whatever else starts and stops |
| `SettingsRuns.WebThenApi` | crates/web/src/handlers/admin_restart_console.rs:1-18 | Restarting web before api leaves web behind whenever what was saved matters to web |
| `SettingsRuns.FetchSharedRuntimeSettings` | crates/web/src/lib.rs:122-159 | The loop returns the first answer among five attempts with pauses that double from 500 ms, and fails only after five failures and four pauses |
| `Forwarder.ApplicationLogForwarder.Submit` | crates/web/src/telemetry.rs:45-50 | A record is accepted exactly when the channel holds fewer than 512; otherwise nothing changes |
| `Forwarder.ApplicationLogForwarder.Turn` | crates/web/src/telemetry.rs:97-123 | Does to the channel, to the records accepted and to the batches handed over exactly what TurnOf says, whatever arrives while it waits, drains and uploads |
| `Forwarder.TurnConserves` | crates/web/src/telemetry.rs:97-123 | One turn: the batches handed over, then what is left, are what was there and what was accepted, in order; a batch has 1 to 64 records; the loop ends only when every sender is gone and nothing is left |
| `Forwarder.QuietTurn` | crates/web/src/telemetry.rs:97-123 | A turn without arrivals hands over exactly the oldest records, up to 64, or waits, or ends |
| `Forwarder.ApplicationLogForwarder.Receive` | crates/web/src/telemetry.rs:100-109 | Fills the batch exactly as Drain says: the received record, then what is there or arrives, until 64 or until nothing is there |
| `Forwarder.DrainConserves` | crates/web/src/telemetry.rs:100-109 | Draining loses, repeats and reorders nothing, and stops short of 64 only on an empty channel |
| `Forwarder.ApplicationLogForwarder.Run` | crates/web/src/telemetry.rs:94-125 | Any turns with any arrivals add to the records accepted and to the batches handed over exactly what RunOf says; the batch is empty at every loop head |
| `Forwarder.RunConserves` | crates/web/src/telemetry.rs:94-125 | Over any turns and arrivals, the batches handed over, then what is left, are what was there and what was accepted, in order; the loop ends only when every sender is gone and nothing is left |
| `Forwarder.ApplicationLogForwarder.Finish` | crates/web/src/telemetry.rs:94-125 | Once the last sender is gone the loop hands over everything left in as few batches as fit, and returns |
| `Pagination.NextIsExact` | crates/web/src/pagination.rs:31-43 | Over every i64, the next link exists exactly when the unbounded sum is below the total, so saturation shows in no link |
| `Pagination.PrevUndoesNext` | crates/web/src/pagination.rs:42-43 | The previous link of the next page is the page itself, at every offset >= 0 |
| `Pagination.NextUndoesPrev` | crates/web/src/pagination.rs:42-43 | The next link of the previous page is the page itself exactly when going back was a full step |
| `Pagination.PagesPartition` | crates/web/src/pagination.rs:23-45 | Every row lies on exactly one of the pages visited by following `next` from offset 0 |
| `Pagination.WalkLength` | crates/web/src/pagination.rs:23-45 | The walk has one page for each started `limit` rows, and one when there are none |
| `Pagination.BuildPagerLinks` | crates/web/src/pagination.rs:23-45 | The links are the built addresses of the previous and the next offset, where there are such |
| `Pagination.BuildHref` | crates/web/src/pagination.rs:47-56 | The loop appends each extra pair that is not empty, encoded, after the offset |
| `Pagination.UrlEncode` | crates/web/src/pagination.rs:59-70 | The loop writes unreserved octets as they are and all others as escapes |
| `Pagination.PercentRoundTrip` | crates/web/src/pagination.rs:59-70 | Decoding inverts percent-encoding for every octet string, and the encoding uses only unreserved characters and escapes |
| `Pagination.LinkReadsBack` | crates/web/src/pagination.rs:47-70 | A link decodes to its base, its offset, and exactly the extra pairs that are not empty, in order |

## Left out

- Poisoned locks in the session cache, header values the HTTP library refuses when cookies are appended, and `expect`s: failures of the platform.
- HMAC, SHA-256, base64 and the hex tables of the libraries: unspecified functions with fixed output length; where an outcome depends on their strength, a theorem names the collision, assumes the sessions of one run hash apart, or assumes one value unforged.
- api's own checks of device-key proofs: api is a responder that answers truthfully about what it has bound or fails. A session stays bound once bound, also after api reports a key mismatch or a gone session.
- SessionKeyRuns.LongCookieAloneStopsWorking: web's wall clock may jump but stays between 1970 and 600 s before the end of i64; the monotonic clock of one process does not run backwards.
- DeviceObservation.ObserverFindsFirstSignIn: cookie names are constants of the code, so names with separators, outer white space or unreadable characters are left out, here and in the other lemmas about operations; values are arbitrary.
- DeviceObservation.SignInsAreSessions: a first live operation that is no session and whose value does not survive the header; what the observer then reports is in ObserverReportsFirstSeen.
- SessionKeyBrowser.BoundBrowserPasses: web's clock is within 600 s of the reply's; it and the browser's clock need not agree otherwise. Over HTTP only the session cookie's round trip is proved.
- BrowserJar.SecureSessionReads: cookies other than web's own are any that section 5.2 of RFC 6265 can parse; the `Expires` attribute is not modelled, as web never writes it, and neither are storage limits and partitioning; the value set is a session identifier, without semicolons and outer white space.
- The JSON body of a registration and the reading of request metadata: plumbing.
- `observe_sign_ins` beyond the sign-in test and the registration header, and `issued_enrollment_ticket`, which repeats its shape.
- `theme_cookie_to_write` and writing the `lang` cookie on an explicit choice: each is settled by one reading.
- URL parsing and the public suffix list: an origin is given by host and scheme, the list is a predicate.
- DER lengths of 256 or more length octets, for which `bytes` raises: no content in memory reaches them; negative integers, for which `to_bytes` raises.
- Certificates, chains and files of the fixture script: calls into a library that is not shown.
- `selected_methods`: a fixed table.
- The safety status and texts of resolved settings, parsing of typed values at start, and which checks a saved value must pass: the checks are a predicate, a start that fails is a move that does not happen.
- Settings.SharedSettingResolver.OptionalString: the shared cell of noted keys is a field of the resolver, and the five keys web resolves at start are arbitrary keys.
- SettingsRuns.ApiThenWeb: one api and one web process; several instances behind one address are not modelled.
- Forwarder.ApplicationLogForwarder.Turn: fairness of the channel and cancellation safety of the timed receive are assumed; a failed or late upload loses its batch, as in the code.
- `page_query`, getters, `Debug` implementations, user interface: each is settled by one reading.
