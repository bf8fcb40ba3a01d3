# wherethemiceat: a Dafny model of the report, vote and proximity core

wherethemiceat is a map where people report sightings anonymously. This
project models its core:

- **Report lifetime.** A report is valid for 60 minutes. It gains or loses
  time through votes, and it is never listed after its expiry.
- **Routes.** The three API routes work on the reports, votes, comments and
  comment flags tables. The model covers:
  - GET and POST `/api/reports`;
  - GET, POST and DELETE `/api/votes`;
  - GET and POST `/api/comments`.
- **Client store.** The store keeps the report list. Realtime change events
  and a once-a-minute sweep keep that list in step with the tables.
- **Temperature.** The "temperature" is computed from the distance to the
  nearest report.
- **Helpers.** Validation, time and fingerprint helpers are modelled.
- **IP-key rotation.** This is the round-robin choice of IP-lookup keys.

Both of the identity hashes are anonymous: a user is the pair
(fingerprint hash, IP hash).

## How it is modelled

- **Time.** Instants are integer milliseconds, and a minute is 60000 of them.
  The current time is always a parameter.
- **Tables.** The four tables are the sequence fields of one class,
  `Tables.Database`. A route is a function from the tables and the request to
  the answer and the new tables. Beside it is a method on the database, whose
  `ensures` ties it to that function.
- **Supabase queries.** `.eq`/`.gt` filters are `Query.Filter`.
  `.order(..., { ascending: false })` is `Query.SortDesc`. `.range(from, to)`
  is `Query.Range`, and `.single()` is `Tables.Single`.
- **Stateful objects.** These are classes whose methods state their whole new
  state:
  - the client store is `AppStore.Store`;
  - the identity cache is `Fingerprint.IdentityCache`;
  - the IP-key rotation module is `IpRotation.KeyRotation`. It holds
    `cachedConfig` and the two browser-storage entries.
- **Loops.** The source's loops are methods with loop invariants, each proved
  against a function:
  - the nearest-report scan;
  - the environment-key loop;
  - the available-key loop;
  - the reset loop;
  - the expiry sweep.
- **Injected values.** Distances are `real`. The great-circle distance
  function is a parameter, and so are the SHA-256 digest and the relative-time
  phrase of date-fns.
- **Upvote bonus.** The vote route computes it as `min(upvotes * 20, 10)`.
  This is kept exactly as written, so any upvote gives 10 minutes
  (`VotesRoute.UpvoteBonusMinutes`).
- **IP fallback flag.** `ENABLE_IPGEOLOCATION_FALLBACK` is shipped as `false`.
  The rotation takes it as a parameter, so both settings are covered.

## Model

| member | source | states |
|---|---|---|
| Basics.Round | lib/geolocation.ts:147 | `Math.round`: the nearest integer, halves rounded up |
| Text.NatToString | utils/time.ts:98 | decimal rendering: at least one digit, no leading zero except for 0, and one digit exactly below 10 |
| Text.ParseNatToString | utils/time.ts:98 | reading a rendered number back gives the number |
| Text.ParseNatLeadingZeros | utils/time.ts:98 | zeros padded in front do not change the value read |
| Text.ParseNatOfZeros | utils/time.ts:98 | a string of zeros reads as 0 |
| Text.IntToString | lib/geolocation.ts:147 | `String(i)`: a minus sign exactly for negatives, and the digits of the value otherwise |
| Text.PadStart2 | utils/time.ts:98 | `padStart(2, "0")`: length at least 2, and padded digits keep their value |
| Text.TrimStartSlice | utils/validation.ts:35 | what the leading trim drops is whitespace, and what it keeps is a suffix starting with non-whitespace |
| Text.TrimEndSlice | utils/validation.ts:35 | what the trailing trim drops is whitespace, and what it keeps is a prefix ending with non-whitespace |
| Text.TrimOffset | utils/validation.ts:55 | the number of leading characters `trim` drops lies within the string |
| Text.TrimSlice | utils/validation.ts:35 | `trim` keeps one contiguous slice, drops only whitespace on both sides, and keeps no whitespace at either end |
| Text.AllWhitespaceAppend | utils/validation.ts:35-36 | whitespace followed by whitespace is whitespace |
| Text.TrimEmptyIffBlank | utils/validation.ts:35-38 | the trimmed string is empty exactly when every character is whitespace |
| TimeUtils.TimeRemainingMinutes | utils/time.ts:63-68 | whole minutes left: m minutes fit in the time left and m + 1 do not, counting a past expiry as no time; 0 once past |
| TimeUtils.CalculateInitialValidity | utils/time.ts:13-15 | a new report expires 60 minutes after now and has 60 whole minutes left |
| TimeUtils.CalculateValidityAfterUpvote | utils/time.ts:20-31 | the expiry after an upvote is the earlier of expiry + 20 minutes and now + 70 minutes |
| TimeUtils.DownvoteReductionStep | utils/time.ts:41-42 | one more downvote takes off 2 more minutes exactly when it completes a batch of 5, and nothing otherwise |
| TimeUtils.DownvoteReductionMonotone | utils/time.ts:41-42 | more downvotes never take off fewer minutes |
| TimeUtils.CalculateValidityAfterDownvote | utils/time.ts:36-50 | 2 minutes per complete batch of 5 are taken off, never before now; fewer than 5 keep a future expiry |
| TimeUtils.FormatTimeRemaining | utils/time.ts:73-81 | a past expiry reads "Expired"; any other expiry reads the relative phrase |
| TimeUtils.ExpiryIsPermanent | utils/time.ts:55-58 | once expired, a report stays expired at every later time, and so does any earlier expiry |
| TimeUtils.ExpiredDisplaysAgree | utils/time.ts:55-129 | for a past expiry all four displays agree: "Expired", 0 minutes, progress 0 and "0:00"; unless the relative phrase is itself "Expired", the text reads "Expired" exactly when the report is expired; a minute or more left gives positive progress |
| TimeUtils.TwoDigits | utils/time.ts:98 | numbers below 100 render in at most two digits |
| TimeUtils.FormatTimeRemainingDetailedReadsBack | utils/time.ts:86-99 | "m:ss" reads back as the minutes and seconds (0 to 59) of the whole seconds left; a past expiry reads "0:00" |
| TimeUtils.CalculateProbability | utils/time.ts:104-113 | 50 with no votes; otherwise a value in [0, 100] within half a point of the upvote share |
| TimeUtils.RoundedShare | utils/time.ts:109-112 | the rounded percentage `p` satisfies (2p-1)·total ≤ 200·upvotes < (2p+1)·total |
| TimeUtils.GetTimeRemainingProgress | utils/time.ts:118-129 | a percentage in [0, 100]; 0 for a past expiry |
| TimeUtils.TimeRemainingMonotone | utils/time.ts:63-68 | a later expiry never has fewer minutes left |
| TimeUtils.ProgressMonotone | utils/time.ts:118-129 | a later expiry never shows less progress |
| Temperature.TemperatureValue | lib/temperature.ts:8-32 | a value in [0, 100]; 0 from 5 km outward; 100 at distance 0 or less |
| Temperature.TemperatureAnchors | lib/temperature.ts:8-32 | at 5000, 2000, 500, 100 and 0 m the value is exactly 0, 25, 50, 75 and 100 |
| Temperature.TemperatureMonotoneContinuous | lib/temperature.ts:8-32 | nearer is never warmer, and the value changes by at most a quarter point per metre (the bands join continuously) |
| Temperature.LevelMonotone | lib/temperature.ts:37-43 | a higher value never gives a warmer level |
| Temperature.LevelOfDistance | lib/temperature.ts:37-43 | classifying the value gives the level of the distance band (extreme to 100 m, freeze to 500 m, cold to 2000 m, cool to 3800 m where the value reaches 10) |
| Temperature.CreateTemperatureState | lib/temperature.ts:94-111 | no distance gives the normal state; otherwise the value of the distance and its level, with the distance kept |
| Temperature.CreateTemperatureStateLevel | lib/temperature.ts:94-111 | a measured distance gives the level of its band |
| Temperature.DescriptionsDistinct | lib/temperature.ts:116-130 | the five descriptions differ, so the text tells the level |
| Geolocation.NearestIndex | lib/geolocation.ts:55-74 | the index of the first place at minimal distance among the first n places |
| Geolocation.FindNearest | lib/geolocation.ts:49-77 | null exactly for no places; otherwise a listed place whose distance is at most every place's |
| Geolocation.FindNearestEarliest | lib/geolocation.ts:70 | on ties the earliest closest place wins (strict `<`) |
| Geolocation.FindNearestLocation | lib/geolocation.ts:49-77 | the scan's result equals `FindNearest` |
| Geolocation.ProximityRadiusMonotone | lib/geolocation.ts:32-44 | a wider radius accepts every location a narrower one does |
| Geolocation.ProximityDefaultRadius | lib/geolocation.ts:32-44 | `isWithinProximity` without a radius is the check at 50 m, and any radius of 50 m or more accepts what it accepts |
| Geolocation.FormatDistance | lib/geolocation.ts:145-151 | below 1000 m the text ends in "m" (not "km"); otherwise in "km" with one decimal |
| Geolocation.FormatDistanceReadsBack | lib/geolocation.ts:145-151 | the metres text reads back as the rounded metres; the km text as the tenths of km |
| Proximity.Places | hooks/useProximityCalculator.ts:38-42 | the `{ id, latitude, longitude }` projection keeps length and order |
| Proximity.CalculateProximity | hooks/useProximityCalculator.ts:10-50 | without location or reports the normal state; otherwise the state of the nearest report's distance |
| Proximity.ProximityAlwaysWrites | hooks/useProximityCalculator.ts:45-49 | with a location the temperature is always written |
| Proximity.ProximityLevel | hooks/useProximityCalculator.ts:36-48 | the level written is never warmer than that of any report's distance |
| Proximity.ProximityIgnoresVotes | hooks/useProximityCalculator.ts:36-43 | reports at the same places give the same temperature, whatever their votes |
| Proximity.ProximityNewReportNotWarmer | hooks/useProximityCalculator.ts:36-48 | one more report never makes the temperature warmer |
| Validation.ValidLocationIsClosedBox | utils/validation.ts:6-22 | a location is valid exactly in the closed box [-90, 90] x [-180, 180]; a missing number is invalid |
| Validation.IsValidComment | utils/validation.ts:27-48 | "empty" exactly for a missing or blank comment, "too long" exactly for more than 500 trimmed characters, valid exactly otherwise |
| Validation.ReplaceAllAppend | utils/validation.ts:56-60 | a global replace distributes over concatenation |
| Validation.SanitizeComment | utils/validation.ts:53-61 | the sanitised text is the per-character escape of the trimmed text and holds none of `<>"'/` |
| Validation.EscapeChar | utils/validation.ts:56-60 | the escape of one character has no special character and keeps any other character |
| Validation.EscapeHtml | utils/validation.ts:56-60 | escaping leaves no special character and keeps text without one unchanged |
| Validation.ChainIsEscape | utils/validation.ts:54-60 | the five chained replacements equal the per-character escape (`&` is not re-escaped) |
| Validation.ChainOneChar | utils/validation.ts:56-60 | on one character the chain gives its escape |
| Validation.LaterStagesKeep | utils/validation.ts:57-60 | an inserted entity survives the later replacements |
| Validation.ReplaceSingle | utils/validation.ts:56-60 | a replace on one character |
| Validation.UntouchedByReplace | utils/validation.ts:56-60 | text without the character is left as it is |
| Validation.ChainAppend | utils/validation.ts:54-60 | the chain distributes over concatenation |
| Validation.SanitizeKeepsOtherCharacters | utils/validation.ts:53-61 | any other non-whitespace character, `&` included, passes through |
| Validation.UUIDByPosition | utils/validation.ts:66-70 | a UUID is exactly 36 characters, hyphens at 8, 13, 18 and 23, hex digits of either case elsewhere |
| Fingerprint.HexChar | lib/fingerprint.ts:11 | a lower-case hex digit whose value is the nibble |
| Fingerprint.NatToHex | lib/fingerprint.ts:11 | `toString(16)`: one digit exactly below 16 |
| Fingerprint.HexOfByteDigits | lib/fingerprint.ts:11 | every byte gives two digits, high nibble first |
| Fingerprint.HexEncode | lib/fingerprint.ts:10-11 | twice as many characters as bytes |
| Fingerprint.HexEncodePositions | lib/fingerprint.ts:11 | characters 2i and 2i+1 are the nibbles of byte i |
| Fingerprint.HexEncodeLowerHex | lib/fingerprint.ts:11 | the text is lower-case hex only |
| Fingerprint.HexDecode | lib/fingerprint.ts:11 | a decoded text has two characters per byte |
| Fingerprint.HexRoundTrip | lib/fingerprint.ts:6-13 | decoding the hash text gives back the digest bytes |
| Fingerprint.DigestTextIsValidHash | lib/fingerprint.ts:6-13 | a 32-byte digest gives a text that `isValidHash` accepts |
| Fingerprint.DigestTextValidIffSha256Length | utils/validation.ts:82-84 | `isValidHash` accepts the hex text of a digest exactly when the digest has 32 bytes |
| Fingerprint.HashString | lib/fingerprint.ts:6-13 | the hash text has two characters per digest byte |
| Fingerprint.CacheHitWindow | lib/fingerprint.ts:68 | a cached identity is served for exactly 300000 ms after its fetch; an empty cache never |
| Fingerprint.IdentityCache.constructor | lib/fingerprint.ts:56-57 | the cache starts empty, stamped 0 |
| Fingerprint.IdentityCache.GetUserIdentity | lib/fingerprint.ts:64-92 | a fetch happens exactly on a miss; a hit returns the cache unchanged; a fetch caches the fresh identity and its hashes, stamped now |
| Fingerprint.IdentityCache.ClearIdentityCache | lib/fingerprint.ts:97-101 | the cache is emptied, so the next call fetches at any time |
| Query.Filter | app/api/reports/route.ts:12-16 | `.eq`/`.gt`: at most the rows, every one satisfying the condition |
| Query.FilterMembers | app/api/reports/route.ts:12-16 | the filter holds exactly the matching rows, none more often than the table |
| Query.SortDescSortedPerm | app/api/reports/route.ts:16 | `.order(created_at, descending)` gives the same rows, largest key first |
| Query.Range | app/api/comments/route.ts:28 | `.range(from, to)` gives rows `from` to `to` inclusive, cut at the end of the table |
| Tables.Single | app/api/votes/route.ts:21-26 | `.single()` gives a row exactly when one row matches, and that row |
| ReportsRoute.ActiveReports | app/api/reports/route.ts:10-28 | the reports expiring after now, newest first, a permutation of the active ones |
| ReportsRoute.ActiveReportsMembers | app/api/reports/route.ts:12-16 | a report is listed exactly when it is stored and expires after now |
| ReportsRoute.ActiveReportsNotExpired | app/api/reports/route.ts:15 | a listed report is not expired in the sense of `isReportExpired` |
| ReportsRoute.PostReport | app/api/reports/route.ts:33-95 | invalid coordinates give 400 whatever the action; only "create" changes the table, by appending the new report, answered with 201 |
| ReportsRoute.CheckNearbyQueriesRadius | app/api/reports/route.ts:47-63 | "check_nearby" inserts nothing and answers the procedure's rows for 50 m, none for null |
| ReportsRoute.CreateInsertsOne | app/api/reports/route.ts:66-82 | "create" appends one report: the coordinates, created now, expiring 60 minutes later, no votes |
| ReportsRoute.OtherActionRefused | app/api/reports/route.ts:84-87 | any other action is 400 "Invalid action" and inserts nothing |
| ReportsRoute.CreatedReportListed | app/api/reports/route.ts:10-82 | a created report is listed by GET until its 60 minutes have passed |
| ReportsRoute.Get | app/api/reports/route.ts:10-28 | the database method answers `ActiveReports` and changes no table |
| ReportsRoute.Post | app/api/reports/route.ts:33-95 | the database method answers and stores what `PostReport` does |
| VotesRoute.DbVoteType | app/api/votes/route.ts:89-96 | "upvote" maps to up and any other type to down |
| VotesRoute.VoteTypeCheckAcceptsStoredNames | utils/validation.ts:75-77 | `isValidVoteType` accepts exactly the stored names "up" and "down", and refuses the request's "upvote" and "downvote" |
| VotesRoute.InvalidVoteTypeUnreachable | app/api/votes/route.ts:89-96 | the mapped type always passes the enum check, so "Invalid vote type" is never answered |
| VotesRoute.UpvoteBonusMinutes | app/api/votes/route.ts:163-176 | the bonus is 0 without upvotes and exactly 10 with any |
| VotesRoute.RecomputedExpiry | app/api/votes/route.ts:163-176 | the expiry is never before now, and never after created_at + 70 minutes unless that is already past |
| VotesRoute.RecomputedExpiryBase | app/api/votes/route.ts:163-176 | the base is 70 minutes with an upvote and 60 without |
| VotesRoute.RecomputedExpiryMonotone | app/api/votes/route.ts:163-176 | more upvotes never shorten, more downvotes never lengthen |
| VotesRoute.RecomputedExpiryWithoutVotes | app/api/votes/route.ts:245-263 | a report without votes, recomputed at creation, keeps its 60-minute expiry |
| VotesRoute.VoteIndex | app/api/votes/route.ts:100-111 | a row of the identity on the report when there is one; none exactly when no row matches |
| VotesRoute.ExistingVoteIsIndexed | app/api/votes/route.ts:100-111 | with unique triples `.single()` finds the identity's row exactly when it exists |
| VotesRoute.SetReportCounts | app/api/votes/route.ts:178-188 | the rows with the id get the counts and the expiry; nothing else changes |
| VotesRoute.SaveCounts | app/api/votes/route.ts:143-195 | 200 exactly when one report row has the id, with the tallies of the votes and the recomputed expiry stored on that row; otherwise 500 with the reports unchanged; the votes and the report ids never change |
| VotesRoute.MissingFieldsChangeNothing | app/api/votes/route.ts:58-63 | missing fields give 400 and change no table |
| VotesRoute.DuplicateVoteChangesNothing | app/api/votes/route.ts:114-120 | voting the same way again gives 400 and changes nothing |
| VotesRoute.OnlyRowOfIdentity | app/api/votes/route.ts:100-111 | with unique triples no other row belongs to the identity on the report |
| VotesRoute.SameKeySameRow | app/api/votes/route.ts:100-111 | two rows with the same triple are the same row |
| VotesRoute.CastVotesUnique | app/api/votes/route.ts:122-141 | casting keeps triples unique and leaves the identity one row, of the cast type |
| VotesRoute.CastKeepsOthers | app/api/votes/route.ts:122-141 | casting changes no row of another identity or report |
| VotesRoute.UpdateKeepsKeys | app/api/votes/route.ts:122-128 | switching a row's type keeps every triple |
| VotesRoute.AppendFreshKey | app/api/votes/route.ts:129-141 | appending a row with a new triple keeps triples unique |
| VotesRoute.VoteIndexUnique | app/api/votes/route.ts:100-111 | with unique triples a matching index is the first one |
| VotesRoute.CastVotesTallies | app/api/votes/route.ts:122-152 | a new vote adds one to its type; a switch also takes one from the other; other reports keep their counts |
| VotesRoute.PostVoteCasts | app/api/votes/route.ts:49-204 | a POST past the checks writes the cast table and stores its tallies |
| VotesRoute.DeleteRemovesOnlyIdentity | app/api/votes/route.ts:224-231 | DELETE leaves the identity no row on the report and keeps every other row |
| VotesRoute.FilterKeepsUnique | app/api/votes/route.ts:224-231 | removing rows keeps the triples unique |
| VotesRoute.DeleteWithoutVoteKeepsVotes | app/api/votes/route.ts:224-231 | DELETE without a vote keeps the vote table, is no error when the report can be read, and answers the unchanged tallies |
| VotesRoute.DeleteIdempotent | app/api/votes/route.ts:209-291 | a second DELETE leaves the same votes, succeeds whenever the first did, and then reports the same counts |
| VotesRoute.DeleteTallies | app/api/votes/route.ts:233-242 | removing a vote takes one from its type and leaves the other |
| VotesRoute.CountSplit | app/api/votes/route.ts:233-242 | a count splits around one row |
| VotesRoute.GetVote | app/api/votes/route.ts:8-44 | as written: 400 without both fields; otherwise 200 with a vote exactly when one row matches the report and fingerprint, and that vote is such a row |
| VotesRoute.GetVoteKeyMismatch | app/api/votes/route.ts:21-26 | GET shows a vote another IP cast with the same fingerprint, and shows none when a fingerprint voted from two IPs |
| VotesRoute.GetVoteByIdentity | app/api/votes/route.ts:8-44 | keyed on the whole identity, as POST and DELETE are: 400 without all three fields; otherwise 200 with a vote exactly when one row matches the report and identity, and that vote is the row |
| VotesRoute.GetVoteByIdentityAfterPost | app/api/votes/route.ts:8-141 | after a successful POST the keyed lookup shows the cast vote |
| VotesRoute.GetVoteByIdentityAfterDelete | app/api/votes/route.ts:8-231 | after DELETE the keyed lookup shows no vote |
| VotesRoute.Post | app/api/votes/route.ts:49-204 | the database method answers and stores what POST does |
| VotesRoute.Delete | app/api/votes/route.ts:209-291 | the database method answers and stores what DELETE does |
| VotesRoute.StoreCounts | app/api/votes/route.ts:143-188 | the recount answers and writes what `SaveCounts` does |
| CommentsRoute.ReportComments | app/api/comments/route.ts:22-28 | the report's comments, newest first, as a permutation |
| CommentsRoute.GetComments | app/api/comments/route.ts:9-46 | 400 for a missing or malformed id; otherwise rows 20p to 20p+19, and `hasMore` exactly when more remain |
| CommentsRoute.PagesCoverAll | app/api/comments/route.ts:25-30 | comment k is on page k / 20 at position k % 20 |
| CommentsRoute.HasMoreIffNextPageNonEmpty | app/api/comments/route.ts:37 | `hasMore` is true exactly when the next page is not empty |
| CommentsRoute.PostComment | app/api/comments/route.ts:51-136 | every error is a 400 that changes nothing; success is 201; at most one of the two tables changes |
| CommentsRoute.CreateStoresVerbatim | app/api/comments/route.ts:56-87 | "create" inserts exactly for a UUID report id and a valid comment; the content is stored untrimmed |
| CommentsRoute.FlagOncePerIdentity | app/api/comments/route.ts:88-123 | "report" answers 201 exactly for a UUID comment id not yet flagged by the identity, and then appends that flag with the identity and now; comments stay, and flags stay unique |
| CommentsRoute.SecondFlagRefused | app/api/comments/route.ts:98-111 | flagging twice from the same identity stores one flag |
| CommentsRoute.OnlyFlagOfIdentity | app/api/comments/route.ts:98-111 | with unique flags the identity has only that flag on the comment |
| CommentsRoute.AppendFreshFlag | app/api/comments/route.ts:114-118 | appending a new triple keeps flags unique |
| CommentsRoute.OtherActionRefused | app/api/comments/route.ts:125-128 | any other action is 400 and changes nothing |
| CommentsRoute.Get | app/api/comments/route.ts:9-46 | the database method answers `GetComments` and changes nothing |
| CommentsRoute.Post | app/api/comments/route.ts:51-136 | the database method answers and stores what `PostComment` does |
| CommentsRoute.Create | app/api/comments/route.ts:56-87 | the "create" branch on the database |
| CommentsRoute.Flag | app/api/comments/route.ts:88-123 | the "report" branch on the database |
| AppStore.Merge | store/useAppStore.ts:60 | `{ ...report, ...updates }`: each of the seven fields from the update when set, else from the report |
| AppStore.MergeLaws | store/useAppStore.ts:57-66 | an empty update keeps the report; a whole report replaces it; merging twice is merging once |
| AppStore.UpdatedReports | store/useAppStore.ts:59-61 | same length; each report with the id merged, the others untouched |
| AppStore.UpdatedReportsLaws | store/useAppStore.ts:57-66 | ids are kept; updating twice is updating once; an absent id changes nothing |
| AppStore.RemovedReports | store/useAppStore.ts:70 | exactly the reports with another id remain |
| AppStore.RemovedReportsLaws | store/useAppStore.ts:68-73 | removal distributes over concatenation, skips an absent id, and is idempotent |
| AppStore.AddThenRemove | store/useAppStore.ts:52-73 | adding a report and removing its id is removing the id |
| AppStore.Store.constructor | store/useAppStore.ts:21-123 | the initial state: empty lists, nothing selected, normal temperature, closed modal |
| AppStore.Store.SetLocation | store/useAppStore.ts:25 | only the location changes |
| AppStore.Store.SetIdentity | store/useAppStore.ts:26 | only the identity changes |
| AppStore.Store.SetLocationEnabled | store/useAppStore.ts:27 | only the flag changes |
| AppStore.Store.SetReports | store/useAppStore.ts:38 | only the list changes |
| AppStore.Store.RefetchReports | store/useAppStore.ts:40-50 | the list is replaced only by a successful answer |
| AppStore.Store.AddReport | store/useAppStore.ts:52-55 | the report is appended, without an id check |
| AppStore.Store.UpdateReport | store/useAppStore.ts:57-66 | the list and the selection are merged for the id |
| AppStore.Store.RemoveReport | store/useAppStore.ts:68-73 | the id leaves the list, and a selection with it is cleared |
| AppStore.Store.SetSelectedReport | store/useAppStore.ts:75 | only the selection changes |
| AppStore.Store.SetNearbyReports | store/useAppStore.ts:76 | only the nearby list changes |
| AppStore.Store.SetLoading | store/useAppStore.ts:77 | only the loading flag changes |
| AppStore.Store.SetError | store/useAppStore.ts:78 | only the error changes |
| AppStore.Store.SetTemperature | store/useAppStore.ts:95 | only the temperature changes |
| AppStore.Store.OpenModal | store/useAppStore.ts:97-104 | the modal opens with the type and data |
| AppStore.Store.CloseModal | store/useAppStore.ts:106-113 | the modal closes, without type or data |
| AppStore.Store.ToggleSidebar | store/useAppStore.ts:115 | the sidebar flag flips |
| AppStore.Store.SetSidebarOpen | store/useAppStore.ts:116 | only the sidebar flag changes |
| AppStore.Store.AddMarker | store/useAppStore.ts:127-132 | the marker is stored under the id |
| AppStore.Store.RemoveMarker | store/useAppStore.ts:134-144 | the id's marker is dropped |
| AppStore.Store.SetUserMarker | store/useAppStore.ts:146 | only the user marker changes |
| AppStore.Store.ClearMarkers | store/useAppStore.ts:148-155 | no marker is left |
| AppStore.MarkerLaws | store/useAppStore.ts:127-144 | an added marker is found, others are kept; a removed id is gone, others are kept; adding then removing a new id restores the map |
| AppStore.CloseAfterOpen | store/useAppStore.ts:97-113 | closing after opening gives the closed modal, which is the initial one |
| Realtime.FetchReports | hooks/useRealtimeReports.ts:15-25 | the list is replaced only by a successful answer |
| Realtime.OnReportInsert | hooks/useRealtimeReports.ts:58-65 | an insert is appended exactly when not expired |
| Realtime.OnReportUpdate | hooks/useRealtimeReports.ts:74-83 | an expired update removes the id; any other is merged |
| Realtime.OnReportDelete | hooks/useRealtimeReports.ts:92-95 | a delete removes the id |
| Realtime.OnVoteChange | hooks/useRealtimeReports.ts:109-142 | a vote event merges the re-read report when it exists and is unexpired; otherwise nothing |
| Realtime.VoteEventKeepsIds | hooks/useRealtimeReports.ts:118-119 | a vote event keeps the list's length and ids |
| Realtime.ExpiredIdsMembers | hooks/useRealtimeReports.ts:156-160 | an id is swept exactly when a captured report with it has expired |
| Realtime.WithoutOneMore | hooks/useRealtimeReports.ts:156-160 | removing one more id adds it to the removed set |
| Realtime.SweptNothing | hooks/useRealtimeReports.ts:156-160 | sweeping no id changes nothing |
| Realtime.SweptOneMore | hooks/useRealtimeReports.ts:156-160 | `removeReport` on a swept store sweeps one more id |
| Realtime.ExpiredIdsStep | hooks/useRealtimeReports.ts:156-160 | one more captured report adds its id when expired |
| Realtime.CleanupExpired | hooks/useRealtimeReports.ts:154-164 | the sweep removes exactly the expired captured ids from the current list |
| Realtime.CleanupKeepsUnexpired | hooks/useRealtimeReports.ts:154-164 | with unique ids the sweep keeps exactly the unexpired reports, in order |
| Realtime.SameIdSameReport | hooks/useRealtimeReports.ts:156-160 | with unique ids, equal ids mean the same report |
| Realtime.CleanupLeavesNoExpired | hooks/useRealtimeReports.ts:154-164 | no expired captured report survives the sweep |
| IpRotation.SlotKeys | lib/ip-rotation.ts:80-91 | at most n ipgeolocation keys, each with a zero count and a stamp of now |
| IpRotation.SlotOf | lib/ip-rotation.ts:80-91 | every loaded key comes from a usable slot and is that slot's trimmed text |
| IpRotation.SlotKeysComplete | lib/ip-rotation.ts:80-91 | every usable slot contributes its trimmed key |
| IpRotation.EnvKeys | lib/ip-rotation.ts:67-94 | the ipapi entry first, then the slot keys exactly when the fallback is on |
| IpRotation.ShippedKeys | lib/ip-rotation.ts:67-94 | with the fallback off the list is the ipapi entry alone |
| IpRotation.LoadApiKeysFromEnv | lib/ip-rotation.ts:67-94 | the loop returns `EnvKeys` |
| IpRotation.FindKey | lib/ip-rotation.ts:238-240 | `findIndex`: the first key with the service and name, none exactly when absent |
| IpRotation.MergeKeys | lib/ip-rotation.ts:127-139 | the configured keys in order, each replaced by its first saved entry |
| IpRotation.ResetAll | lib/ip-rotation.ts:113-125 | same keys, every count zero, every stamp now |
| IpRotation.StoredState | lib/ip-rotation.ts:99-156 | at least one key and an index in range; the keys have the services and names of the configured keys, in their order; outside a browser or without a saved state the configured keys with index 0; otherwise the saved index when it is still in range, else 0 |
| IpRotation.StoredStateCounts | lib/ip-rotation.ts:113-139 | a still-configured key keeps its saved count unless a day has passed, when it is zero |
| IpRotation.SameNamesSameFind | lib/ip-rotation.ts:127-139 | lists with the same services and names find the same index |
| IpRotation.FirstAvailable | lib/ip-rotation.ts:206-212 | a listed key below 900 requests, and none exactly when every key has 900 or more |
| IpRotation.FirstAvailableIsFirst | lib/ip-rotation.ts:206-212 | the key found is the first one below 900: a below-limit key with every earlier key at the limit is the one returned |
| IpRotation.FirstOf | lib/ip-rotation.ts:200 | `find`: a listed key of the service, and none exactly when the service has no key |
| IpRotation.FirstOfIsFirst | lib/ip-rotation.ts:200 | `find` returns the first key of the service: a key of the service with no earlier one is the one returned |
| IpRotation.NextKey | lib/ip-rotation.ts:191-229 | nothing exactly without keys; a configured key; the index moves only with the fallback on, to the next key, which is then returned |
| IpRotation.NextKeyAvoidsExhausted | lib/ip-rotation.ts:198-212 | the first ipapi entry is returned, without moving the index, while it is below the limit; with the fallback on and that entry absent or exhausted, a below-limit ipgeolocation key is returned when one exists |
| IpRotation.NextKeyFirstIpgeo | lib/ip-rotation.ts:205-212 | with the fallback on and the ipapi entry absent or exhausted, the answer is the first below-limit ipgeolocation key, index unchanged |
| IpRotation.NextKeyRotates | lib/ip-rotation.ts:215-219 | with the fallback on, every key exhausted and some ipgeolocation key configured, the index advances by one modulo the number of keys and the key at the new index is returned |
| IpRotation.NextKeyWithoutFallback | lib/ip-rotation.ts:191-229 | with the fallback off the ipapi entry (or first key) is returned and the index stays |
| IpRotation.FirstAvailableSkip | lib/ip-rotation.ts:206-212 | an exhausted head is skipped |
| IpRotation.FindAvailable | lib/ip-rotation.ts:206-212 | the loop returns `FirstAvailable` |
| IpRotation.IncrementedLaws | lib/ip-rotation.ts:234-255 | only the matching key's count grows by one; the index moves to the next key exactly when it reaches 900 |
| IpRotation.IncrementUnknownKey | lib/ip-rotation.ts:238-242 | an unconfigured key changes nothing |
| IpRotation.NthOf | lib/ip-rotation.ts:385-388 | the position of the n-th key of a service |
| IpRotation.NthOfPosition | lib/ip-rotation.ts:385-388 | there is an n-th key exactly when the service has more than n |
| IpRotation.NthOfCount | lib/ip-rotation.ts:385-388 | the n-th key is of the service, with exactly n of its keys before it |
| IpRotation.ResetOneLaws | lib/ip-rotation.ts:383-394 | only the chosen key's count and stamp change; out-of-range indices change nothing; the index stays |
| IpRotation.Status | lib/ip-rotation.ts:337-359 | one row per key with its service and count; remaining is 900 minus the count below the limit and 0 from it; exhausted exactly when the count is 900 or more |
| IpRotation.KeyRotation.constructor | lib/ip-rotation.ts:180-185 | the configuration is `StoredState`, and a new reset stamp is written when it gives one |
| IpRotation.KeyRotation.SaveState | lib/ip-rotation.ts:161-169 | in a browser the configuration is saved; otherwise nothing |
| IpRotation.KeyRotation.GetNextKey | lib/ip-rotation.ts:191-229 | returns `NextKey`'s key and moves the index as it does; nothing else changes and nothing is saved |
| IpRotation.KeyRotation.IncrementKeyUsage | lib/ip-rotation.ts:234-255 | the configuration becomes `Incremented`, saved when the key is configured |
| IpRotation.KeyRotation.GetRotationStatus | lib/ip-rotation.ts:337-359 | the status of the current configuration (remaining and exhausted as in `Status`); nothing changes |
| IpRotation.KeyRotation.ResetAllCounts | lib/ip-rotation.ts:364-378 | counts zero, stamps now, index 0, saved, and a new reset stamp in a browser |
| IpRotation.KeyRotation.ResetKeyCount | lib/ip-rotation.ts:383-394 | the configuration becomes `ResetOne`, saved when the key exists |

## Left out

- The great-circle distance (`calculateDistance`, lib/geolocation.ts) is a
  parameter. Floating-point rounding is modelled with exact reals, and
  `toFixed(1)` as rounding to tenths.
- Supabase itself is outside the model:
  - network and storage errors, the 500 answers they cause, and the
    connection probe of the votes POST;
  - the database procedure `get_nearby_reports`, which is an input;
  - foreign keys and generated row ids, which are inputs;
  - the order of rows with equal keys under `ORDER BY`.
- JavaScript's dynamic typing is not modelled:
  - non-string or NaN fields, where `typeof` checks become `Option`s;
  - a non-numeric or negative `page`, which is a `nat`;
  - UTF-16 length, where strings are sequences of characters.
- VotesRoute.RecomputedExpiry: adds and subtracts minutes as 60000 ms each. The
  source uses `setMinutes(getMinutes() ± n)` in local time
  (app/api/votes/route.ts:163-172 and 253-260), which can differ by an hour
  across a daylight-saving change; that is not modelled. (`addMinutes` in
  utils/time.ts is plain millisecond arithmetic and is modelled exactly.)
- CommentsRoute.GetComments: answers 200 for every well-formed id and page.
  The storage answers 416 for a range that starts past the exact count of
  rows (page 1 of a report with no comments, say), and the route turns that
  error into a 500; that answer is not modelled.
- The relative phrase of `formatDistanceToNow` is an input.
- Timers, polling, React effects, realtime subscriptions and the
  interleaving of async calls are outside the model. Each handler runs
  atomically on the state it is given.
- Presentation helpers are not modelled: gradients, opacities, colours,
  `mapInstance` and `setMapInstance`.
- The `marker.map = null` side effect on marker objects is left out.
  Markers are opaque handles.
- Console logging is left out.
- The browser's `localStorage` is two fields of `KeyRotation`. JSON parsing
  and its errors are modelled as an absent saved state.
- The network parts of lib/ip-rotation.ts are outside the model:
  `rateLimitRequest`, `getUserIPWithRotation` and the IP services.
- The browser fingerprint and the SHA-256 digest are inputs.
- The comments POST is modelled with the identity given. A missing
  fingerprint or IP is not checked there, as the source does not check it.
- IpRotation.KeyRotation.GetNextKey returns a copy of the key. The source
  returns the object inside the configuration, so later writes through it
  are not modelled.
- IpRotation.MergeKeys: copies the first saved entry into every configured
  key with the same service and name, so those entries start equal but are
  separate values afterwards. The source stores the saved object itself
  (lib/ip-rotation.ts:127-133), so such duplicates are one shared object, and
  `requestCount++` (line 244) or a reset (lines 390-391) moves all of them.
  In the model `Incremented` and `ResetOne` change only the first matching
  entry, so once that entry reaches 900 `FirstAvailable` can still return a
  later copy of the same key. This aliasing is not modelled.
- ReportsRoute.ActiveReports lists reports with an expiry after now. The
  client's `isReportExpired` is "before now", so a report expiring exactly
  now is unlisted but not yet expired for the client. Both comparisons are
  modelled as written.

## Findings

| source | as written | input that shows it | evidently intended | confidence | as-written member | corrected member |
|---|---|---|---|---|---|---|
| app/api/votes/route.ts:21-26 | GET looks up the caller's vote by report id and fingerprint hash only, while POST and DELETE key votes on (report, fingerprint hash, IP hash) | one vote row for report R from fingerprint F with IP hash A; a GET for R and F made from IP hash B shows that vote, while a POST from (F, B) is accepted as a new vote. With two rows (F, A) and (F, B), `.single()` finds two rows and GET shows no vote | the vote of the caller's whole identity, the row POST and DELETE act on | medium, not executed | VotesRoute.GetVoteKeyMismatch | VotesRoute.GetVoteByIdentityAfterPost |
