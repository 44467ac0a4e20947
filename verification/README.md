# Verified model of LZApp's core algorithms and protocols

LZApp is a web service written in Go, with a small amount of JavaScript in its API documentation page. This
project restates its hardest parts in Dafny and proves what the service relies on:

- **Circle**: the filled-circle rasteriser of the CAPTCHA picture.
- **LogLines**, **LogNames**, **LogTail**: the chunked backwards log reader, the names of log files, and the
  selection of the newest records.
- **DocsPrune**, **DocsMeaning**, **DocsResolve**, **DocsKept**: the pruning of unused OpenAPI components, what it keeps
  in terms of the document alone, and why what is left still resolves.
- **Base64Url**, **HmacToken**, **Referral**, **Bearer**: signed tokens, referrals and bearer headers.
- **Like**: LIKE escaping and the access filter.
- **Dbkv**, **DbkvRefresh**: the typed key-value table, its update marker, and its cached snapshot.
- **CacheKey**, **CacheTtl**, **CacheFlight**: cache keys, the TTLs, and the two-tier cache with shared loads over
  all interleavings.
- **CacheAlone**, **CacheCaps**: one cache call with nothing in between, and what a forced refresh leaves behind.
- **CacheStale**, **CacheJoin**, **CacheRuns**: exactly when that cache answers past the limit of what it answers with,
  what joining a flight means for the answer, and runs that keep an old record long.
- **UserStore**: the user table behind its three cached lookups.
- **AuthProtocol**, **AuthSteps**, **AuthCodes**: CAPTCHAs, email codes, their attempt counter and their sending
  cooldown.
- **RateLimit**: the fixed-window limiter.
- **Seqs**, **Octets**, **Decimal**: the library operations the others need.

Code that changes things step by step is modelled by methods, loops and classes with the source's own fields,
each proved against a specification function or relation; the lemmas are about those. What runs concurrently
is a state machine with one transition for each atomic step of the source, and the theorems hold for every
sequence of transitions.

`dafny verify dfyconfig.toml` checks everything.

## Assumptions

- One Redis command, or one MULTI block, is one atomic step. One committed transaction, or one SELECT, is one
  atomic step.
- Clocks are monotonic. Times are whole seconds.
- The local cache maps a key to a value and an expiry, and every requested TTL is within its cap. It may lose
  entries at any moment in `CacheFlight`; nothing there depends on keeping them. Elsewhere it loses none.
- A forced touch or expiry sets the time left of a live entry, shorter or longer, as README.md:179-180 of the
  repository says; the cache libraries themselves are not part of this model.
- A single-flight group is a map from keys to calls: a caller joins the call that is there or creates one, and the
  call leaves the map as its result is handed out. That only one runs at a time is proved.
- A lookup that sees a local entry replies in the same step.
- A load that says a record exists gives one; `CacheFlight.AgreesIfMet` says why that must be asked of it.
- The MAC is some deterministic function of the key and the text, with output of a fixed length.
- Random CAPTCHA ids do not repeat; distinct emails have distinct hashes.
- Distinct committed changes of the key-value table carry distinct markers, where a lemma says so: they do exactly
  when their times differ (`DbkvRefresh.CommitMarks`, `DbkvRefresh.TimesAreMarkers`). What happens otherwise is
  stated by `DbkvRefresh.SharedMarkerMisleads` and `DbkvRefresh.UndisturbedIsExact`.

## Where code and expectation part

- A lookup can be answered past "Redis expiry plus one local TTL", for three reasons. A forced refresh sets a live
  local entry to five seconds even when less was left; a relay starts the local TTL only when it stores; and a flight
  stays joinable until it returns, however long ago it looked. `CacheStale.PastOnlyIfLate` says of replies, at the time
  they are given, that there is no other reason. Before each step, `CacheStale.TouchExactly`, `CacheStale.KeepExactly`,
  `CacheJoin.JoinExactly` and `CacheJoin.DeliverExactly` say exactly when it lets a lookup answer past the limit.
  `CacheRuns.LateTouchPasses`, `CacheRuns.SlowRelayPasses`, `CacheRuns.SlowFlightPasses` and `CacheRuns.SlowPeekPasses`
  are runs; the slow flights pass it by any number of seconds. `CacheStale.EveryReplyBound` gives the bound that does
  hold, which counts the time a flight takes after its look, and `CacheStale.InTimeDuringCall` says when the answer was
  still in time at some moment of the call.
- Limits count from the store, as TTLs do. What passes between a load and its store counts for nothing in them.
- Forced refreshes whose loads keep failing, each within five seconds of the one before, keep an old local entry alive
  for as long as they go on: `CacheRuns.StalenessIsUnbounded`.
- `RecordLogin` refreshes the keys of the copy it is given. When that copy has an old email or token, the row's own
  keys can stay stale: `UserStore.Store.RecordLogin` states exactly when, and `UserStore.StaleCopyRun` gets there.
- As a remark: the rate-limit count is a 64-bit word that would wrap in a window asked for 2^64 requests
  (`RateLimit.WrappingAdmits`), which no server receives.
- Cache keys are joined by colons without escaping. No registered path has a colon, and then no two counters share a
  key, whatever the addresses are; `CacheKey.RoutesCollide` says which routes with colons could.
- Any k windows admit at most one less than (k+1) times the limit; `RateLimit.BoundIsReached` gives a case that
  reaches it.

## Model

| member | source | states |
|---|---|---|
| `Circle.Canvas.DrawCircle` | app/server/base/captcha/image.go:116-139 | After the midpoint loop a pixel has the new colour if and only if its offset is in `Painted` (an inequality on the two coordinates, not the loop); every other pixel keeps its colour. Terminates for every radius, negative ones included |
| `Circle.Canvas.DrawHorizontal` | app/server/base/captcha/image.go:110-114 | Exactly the pixels of the row between both ends, inside the picture, change |
| `Circle.Canvas.DrawRows` | app/server/base/captcha/image.go:134-137 | The four rows of one turn change exactly the pixels whose offsets have one coordinate on a row and the other within it |
| `Circle.Canvas.SetColorIndex` | app/server/base/captcha/image.go:122-123 | Points outside the picture are ignored; one inside changes alone |
| `Circle.Canvas.DrawNoise` | app/server/base/captcha/image.go:87-90 | Each pixel ends with the colour of the last scattered circle that covers it, or its old one |
| `Circle.ArcStep` | app/server/base/captcha/image.go:125-138 | One turn of the loop, whichever branch is taken, stays on the arc: the greatest second offset within the circle’s inequality for the next first offset |
| `Circle.ErrorStep` | app/server/base/captcha/image.go:125-133 | The running sums keep their meaning through either branch: both deltas are the next differences of the squares, the error term is how far the point lies outside the circle, and its sign decides which offset is next |
| `Circle.RowsStep` | app/server/base/captcha/image.go:134-137 | What the rows of one turn add is exactly what the octant description of the circle gains |
| `Circle.ArcComplete` | app/server/base/captcha/image.go:125-138 | When the offsets meet, the rows drawn are the whole octant description |
| `Circle.BetweenDisks` | app/server/base/captcha/image.go:116-139 | For every radius the painted set contains every offset within the radius and none with x² + y² > r² + r |
| `Circle.Symmetric` | app/server/base/captcha/image.go:116-139 | The painted set is symmetric in both axes and the diagonal |
| `Circle.OuterBoundIsNotTheDisk` | app/server/base/captcha/image.go:116-139 | The outer disk is needed: some painted offset lies outside the exact radius |
| `Circle.RandomInt` | app/server/base/captcha/image.go:99-104 | The result lies in the half-open range, or is the minimum when the range is empty |
| `Circle.CoversIs` | app/server/base/captcha/image.go:87-90 | The radius of a placed circle is 1 to the dot size, and its centre, when there is room, is drawn along each side from one radius in to one radius before the end |
| `Circle.PlacementInside` | app/server/base/captcha/image.go:87-90 | A placed circle stays inside the picture for all draws if and only if the picture is wider and taller than twice the radius |
| `Circle.NoiseColors` | app/server/base/captcha/image.go:87-90 | Noise writes no background colour, and no pixel outside every circle |
| `Circle.LastCircleWins` | app/server/base/captcha/image.go:87-90 | A covered pixel has the drawn colour, 1 to 19, of the last circle that covers it |
| `LogLines.ReverseLogReader.Line` | components/easylog/reader.go:188-236 | For every chunk and maximum size: end of file if and only if nothing is unread; too long if and only if the last piece without its carriage return exceeds the maximum; otherwise that piece with its offset, and the rest stays unread |
| `LogLines.ReverseLogReader.Scan` | components/easylog/reader.go:192-224 | The chunks collected are exactly the bytes of the last piece, however the chunk boundaries fall |
| `LogLines.ReverseLogReader.Take` | components/easylog/reader.go:211-223 | One turn of the scan either completes the piece, or passes the maximum, or leaves the scan where the next chunk continues it |
| `LogLines.ReverseLogReader.LoadChunk` | components/easylog/reader.go:200-209 | The bytes before the offset are buffered and nothing unread changes |
| `LogLines.Gather` | components/easylog/reader.go:226-230 | Filling the array from its end puts the chunks back in file order |
| `LogLines.BackwardsIsReversedSplit` | components/easylog/reader.go:188-236 | Reading backwards to the end yields the newline-split pieces in reverse, all but an empty first one |
| `LogLines.BackwardsPositions` | components/easylog/reader.go:213 | Every piece comes with its true starting byte offset |
| `LogLines.StripReturnIs` | components/easylog/reader.go:231 | One trailing carriage return goes, and no more |
| `LogTail.NextItem` | components/easylog/reader.go:149-176 | One turn reads the newest unread line: too long; blank, or a fragment at the very end, and skipped; garbage or without a time, with its position; or a record of its time and trimmed text |
| `LogTail.ReadLogFile` | components/easylog/reader.go:131-180 | The file yields its newest records up to the limit, or its first error in reading order |
| `LogTail.ReadFile` | components/easylog/reader.go:132-137 | A file that has vanished since the listing yields no records and no error |
| `LogTail.NewestIsPrefix` | components/easylog/reader.go:148-180 | On a readable file the limit cuts the reading short and changes nothing else |
| `LogTail.AllAreRead` | components/easylog/reader.go:148-180 | A file is readable if and only if no line of it is refused, and its records are then those its lines hold; only the newest line may be a fragment |
| `LogNames.NamesAreRead` | components/easylog/reader.go:25 | A file name yields a level, date and sequence if and only if it is written from them: a known level, eight digits, and digits that denote a 64-bit number |
| `LogTail.SelectFiles` | components/easylog/reader.go:92-103 | The files are exactly those of the entries that are no directories, are named by a level, date and 64-bit sequence number, and have the selected level |
| `LogTail.SortFilesSorts` | components/easylog/reader.go:104-112 | Files are read newest date, then sequence, then name first, each exactly once |
| `LogTail.NewestFileFirst` | components/easylog/reader.go:104-112 | Of any two files the one read first has the later date, or with equal dates the higher sequence number, or with both equal the name that is not smaller |
| `LogTail.ReadFiles` | components/easylog/reader.go:114-129 | Reads file after file with what is left of its level; the first error wins |
| `LogTail.ReadRecords` | components/easylog/reader.go:83-129 | A missing directory has no records; otherwise the selected files are read in order |
| `LogTail.CollectKeeps` | components/easylog/reader.go:114-128 | What is read is the first `limit` records of each level, of all that is there |
| `LogTail.ReadingIsKept` | components/easylog/reader.go:114-128 | The same from the start: the reading is exactly the per-level cut of everything |
| `LogTail.KeptOfLevel` | components/easylog/reader.go:114-128 | Of each level the cut keeps exactly the first `limit` records, in their order |
| `LogTail.SortIsStable` | components/easylog/reader.go:69-71 | The specification sort sorts newest first and keeps the order of equal times |
| `LogTail.StableSortIsUnique` | components/easylog/reader.go:69-71 | Those two facts determine the result, so it is the stable sort |
| `LogTail.CutLosesNothing` | components/easylog/reader.go:69-74 | If each level is read newest first, cutting every level to k records loses none of the first k of the stable sort of everything |
| `LogTail.Write` | components/easylog/reader.go:75-79 | Writes the records from the oldest to the newest, each with a newline |
| `LogTail.RenderIsLines` | components/easylog/reader.go:75-79 | What is written splits at its newlines into the records, in order, and ends in one |
| `LogTail.Show` | components/easylog/reader.go:48-81 | A tail below one is refused; otherwise the output is the last `tail` of the sorted reading, oldest first |
| `LogTail.ShowIsTheTail` | components/easylog/reader.go:48-81 | That output is exactly the last `tail` records of the stable time sort of all selected records in all files |
| `DocsPrune.PointerRoundTrip` | app/server/base/api_handler/docs/docs_auth.js:37-38 | Unescaping reads back the path a JSON Pointer was written for (section 4 of RFC 6901), whatever its names hold |
| `DocsPrune.Marker.Retain` | app/server/base/api_handler/docs/docs_auth.js:16-23 | A component is kept and visited the first time it is asked for, if it is defined |
| `DocsPrune.Marker.FollowReference` | app/server/base/api_handler/docs/docs_auth.js:25-59 | Following a reference has exactly the effect its resolution has: keep, visit, or mark the document unresolved |
| `DocsPrune.Marker.TakeAll` | app/server/base/api_handler/docs/docs_auth.js:65-78 | One object is visited completely: references, mapping, security and children in that order |
| `DocsPrune.Marker.Run` | app/server/base/api_handler/docs/docs_auth.js:61-79 | On every finite heap, cycles included, the worklist terminates with exactly the objects reached from the start, exactly the components they ask for, and the unresolved mark if and only if one of their references does not resolve |
| `DocsPrune.Doc.MarksAreLeast` | app/server/base/api_handler/docs/docs_auth.js:61-79 | With nothing pending the marks are the least set closed under children and references |
| `DocsPrune.ReachedIsLeast` | app/server/base/api_handler/docs/docs_auth.js:61-79 | Any closed set that holds the start holds everything reached |
| `DocsPrune.Document.Prune` | app/server/base/api_handler/docs/docs_auth.js:6-91 | Without a components object, or with an unresolved reference, the document is unchanged; otherwise exactly the unwanted components of the listed groups go |
| `DocsPrune.Document.PruneComponents` | app/server/base/api_handler/docs/docs_auth.js:82-90 | The deletion loop over the ten groups computes the specified heap |
| `DocsResolve.LeftIsKept` | app/server/base/api_handler/docs/docs_auth.js:86-88 | A group is left with exactly its kept names |
| `DocsResolve.PruneGroupsShape` | app/server/base/api_handler/docs/docs_auth.js:82-90 | After all groups, no object but the components object and its groups has changed, and each of those only as specified |
| `DocsResolve.PruneIsDeletion` | app/server/base/api_handler/docs/docs_auth.js:81-90 | On a JSON tree, pruning with any kept set meets the assumptions of the lemmas below |
| `DocsResolve.Situation.LiveIsCalm` | app/server/base/api_handler/docs/docs_auth.js:12-13 | What is reached never includes the schema object, the components object or a group, so deletion edits nothing that is shown |
| `DocsResolve.Situation.EffectSame` | app/server/base/api_handler/docs/docs_auth.js:43-58 | A reference whose target was kept resolves to the same object after deletion |
| `DocsResolve.Situation.KeptPartIntact` | app/server/base/api_handler/docs/docs_auth.js:6-91 | Every reached object is unchanged, and each of its `$ref`, `$dynamicRef`, mappings and security names resolves after deletion exactly as before |
| `DocsResolve.Situation.LiveSame` | app/server/base/api_handler/docs/docs_auth.js:6-91 | Exactly the same objects are reached after deletion |
| `DocsResolve.Situation.StillWanted` | app/server/base/api_handler/docs/docs_auth.js:6-91 | Pruning again finds every reference resolved and keeps the same components: nothing kept is unneeded |
| `DocsResolve.Situation.OnlyKeptRemain` | app/server/base/api_handler/docs/docs_auth.js:82-90 | A prunable group ends with exactly its kept names, each with its old definition |
| `DocsMeaning.FollowStep` | app/server/base/api_handler/docs/docs_auth.js:65-72 | The references a visited object gives are exactly the texts of its `$ref` and `$dynamicRef` and of its discriminator’s mapping |
| `DocsMeaning.SecureStep` | app/server/base/api_handler/docs/docs_auth.js:73-77 | The schemes it asks for are exactly the names in the requirements of its security list |
| `DocsMeaning.VisitStep` | app/server/base/api_handler/docs/docs_auth.js:78 | The values it has visited are exactly its own |
| `DocsMeaning.PartsOfIs` | app/server/base/api_handler/docs/docs_auth.js:31-42 | A reference is read as parts if and only if it starts with #/, decodes, and splits at its slashes into pieces that unescape to them |
| `DocsMeaning.WalkIs` | app/server/base/api_handler/docs/docs_auth.js:43-50 | Walking the parts leads to a value if and only if a chain of own properties does |
| `DocsMeaning.DefinitionIs` | app/server/base/api_handler/docs/docs_auth.js:16-22 | A component is defined as a value if and only if that is its own property in its group |
| `DocsMeaning.MarksAreLeastClosed` | app/server/base/api_handler/docs/docs_auth.js:61-80 | In terms of the heap alone: what is visited and kept is the least that holds the start and, for each visited object, its children, the targets of its references, and what these, its mappings and its security requirements name; a reference is unresolved if and only if a visited object holds one that names no schema and points nowhere |
| `DocsKept.PruneAndResolve` | app/server/base/api_handler/docs/docs_auth.js:6-91 | From end to end, for every JSON tree, in the same terms: pruning leaves the document alone if it has no components object or something visible holds a broken reference. Otherwise visible objects are unchanged, each of their references resolves to the same value, what is needed keeps its definition, nothing else is left in the ten groups, a group goes if and only if nothing in it is needed, nothing else changes, and the same is visible and needed as before |
| `Base64Url.DecodeEncode` | components/security/hmac_token.go:109 | Encoding has the computed length, uses the URL alphabet only, and decodes back (section 5 of RFC 4648) |
| `Base64Url.GroupBits` | components/security/hmac_token.go:109 | A group of letters is the bits of its bytes, most significant first, filled up with zeros |
| `Base64Url.ThreeByThree` | components/security/hmac_token.go:109 | Three bytes are encoded at a time |
| `Base64Url.TestVectors` | components/security/hmac_token.go:109 | Some of the test vectors of section 10 of RFC 4648, and the last two letters of the URL alphabet |
| `Base64Url.EncodeDecode` | components/security/hmac_token.go:133 | Without line breaks, the strict decoder accepts nothing but encodings (section 3.5 of RFC 4648) |
| `Base64Url.CheckedDecode` | components/security/hmac_token.go:142-145 | Decoding with the re-encoding check accepts a text for some bytes if and only if it is their encoding |
| `Base64Url.DecodeIgnoresBreaks` | components/security/hmac_token.go:142-145 | Without the check, exactly the texts that are an encoding once CR and LF are passed over |
| `Base64Url.BreakPassesForNothing` | components/security/hmac_token.go:142-145 | So the check is needed: a lone line break would read as the empty field |
| `HmacToken.Signer.Generate` | components/security/hmac_token.go:89-114 | Prints a token whose last dot separates the encoded fields from the encoded MAC, cut to size, of the very characters before that dot; an error without a key of 32 bytes, or if there is no such token of at most 4096 characters |
| `HmacToken.Signer.EncodeFields` | components/security/hmac_token.go:100-110 | The running length passes the maximum exactly when the whole token would |
| `HmacToken.Signer.TextLength` | components/security/hmac_token.go:96-107 | The running length equals the true length of the token |
| `HmacToken.Signer.Unframe` | components/security/hmac_token.go:121-132 | The frame and the last dot separate signed part and signature; every token ever written is taken apart again |
| `HmacToken.Signer.Authenticate` | components/security/hmac_token.go:133-139 | Accepts a signature text if and only if it is the one this signer writes |
| `HmacToken.Signer.DecodeParts` | components/security/hmac_token.go:140-147 | Yields fields if and only if the parts are the encodings of some, and then those |
| `HmacToken.Signer.Verify` | components/security/hmac_token.go:116-155 | Accepts a text with some fields if and only if it is such a token of those fields: the signature is the MAC, under this key, of what stands before it |
| `HmacToken.Signer.GenuineIsWritten` | components/security/hmac_token.go:111-113 | The tokens so described are exactly those printing yields |
| `HmacToken.RoundTrip` | components/security/hmac_token.go:89-149 | Printing then parsing, and parsing then printing, lead back, empty fields included |
| `HmacToken.TextInjective` | components/security/hmac_token.go:111-113 | A token stands for one list of fields only |
| `HmacToken.GenerateRand` | components/security/hmac_token.go:78-87 | A random token has one field and at most 128 characters |
| `Referral.ValidReferralChannel` | app/server/base/api_handler/user/ref.go:61-74 | Accepts exactly the channels of the documented pattern (ref.go:19) |
| `Referral.ReferralValue` | app/server/base/api_handler/user/ref.go:76-85 | Two fields denote an id and channel if and only if the id is nonzero, 64-bit and written canonically and the channel is valid |
| `Referral.ReferralLength` | app/server/base/api_handler/user/ref.go:52 | Every referral token has at most 128 characters, for every 64-bit id, valid channel and accepted signer size |
| `Referral.VerifiedRef` | app/server/base/api_handler/user/ref.go:87-110 | A token refers to an id and channel if and only if that user exists and the token is a genuine one of the decimal id and the valid channel; it is unavailable if and only if it is genuine and the database fails |
| `Referral.ReferralRoundTrip` | app/server/base/api_handler/user/ref.go:44-110 | The token printed for an existing user and a valid channel verifies to exactly that id and channel |
| `Bearer.ScanToken` | app/server/base/middleware/auth.go:146-158 | The loop accepts exactly the `b64token` grammar (section 2.1 of RFC 6750) |
| `Bearer.FromValue` | app/server/base/middleware/auth.go:138-159 | A header value yields a token if and only if it is the scheme in any case, one or more spaces, and that token |
| `Bearer.SchemeIs` | app/server/base/middleware/auth.go:138 | The scheme is the six letters of Bearer, each in either case |
| `Bearer.BearerToken` | app/server/base/middleware/auth.go:126-160 | The request has a token if and only if one header, and one only, is named Authorization, and it presents that token |
| `Bearer.SignedTokensAreBearer` | components/security/hmac_token.go:111-113 | Every signed token, random ones included, can be presented as a bearer token |
| `Like.EscapedMatches` | app/users/user.go:142-148 | An escaped text inside a pattern matches itself and nothing else |
| `Like.UnderscoreMatchesOne` | app/users/user.go:142-148 | An underscore left unescaped would stand for any one character |
| `Like.FilterIsSubstring` | app/users/user.go:143-148 | The name and email filters match exactly the texts that contain the given one |
| `Like.EscapingIsNeeded` | app/users/user.go:142 | Unescaped, a percent sign would match texts that do not contain it |
| `Like.EncodeAccess` | app/users/access.go:27-42 | Refuses unknown permissions; otherwise the encoded list holds each given one exactly once, in the order they first came up |
| `Like.JsonIs` | app/users/access.go:37-41 | The JSON text of a list |
| `Like.QuotedIsMember` | app/users/access.go:37-41 | A quoted permission occurs in the encoded list if and only if it is in the list |
| `Like.AccessFilterIsMembership` | app/users/user.go:152-154 | The access filter selects exactly the encoded lists that hold the permission |
| `Decimal.ParseFormatInt` | app/dbkv/dbkv.go:277 | Every int64, over the full range, reads back from its text |
| `Decimal.CanonicalInt` | app/dbkv/dbkv.go:242-243 | Every accepted int64 text, plus signs and leading zeros included, has one canonical text with the same value |
| `Decimal.ParseIntIs` | app/dbkv/dbkv.go:242-243 | The accepted int64 texts are digits after at most one sign, with the value they denote, within range |
| `Dbkv.DecodeEncode` | app/dbkv/dbkv.go:239-288 | What is stored for an int64, bool or string value reads back as that value |
| `Dbkv.Canonical` | app/dbkv/dbkv.go:239-288 | Re-encoding a readable text keeps its value, doing it again changes nothing, and only int64 texts change at all |
| `Dbkv.DecodeIs` | app/dbkv/dbkv.go:239-262 | Which texts each format accepts, and as what value |
| `Dbkv.NamesAreNormal` | app/dbkv/dbkv.go:195-203 | Every accepted name is stored trimmed, lower-case and 1 to 191 characters long, and such names are stored as they are |
| `Dbkv.NormalizingNames` | app/dbkv/dbkv.go:264-269 | A name denotes a key if and only if the key is the name without the white space around it, 1 to 191 characters, with its capitals in lower case |
| `Dbkv.Store.constructor` | app/dbkv/dbkv.go:324-335 | Opening changes no row that is there, an existing marker included; it adds only a missing marker, that of a change at time zero; a table of valid rows becomes a valid table |
| `Dbkv.Store.UpsertEntry` | app/dbkv/dbkv.go:302-322 | Inserts, or overwrites a row of the same format; another format is refused |
| `Dbkv.Store.Change` | app/dbkv/dbkv.go:337-354 | The change and the marker are written together or not at all |
| `Dbkv.Store.Execute` | app/dbkv/dbkv.go:291-457 | After a Set or SetRecord without failure the row of the name has the format and description, is visible, and holds the canonical text of the value; after a Delete it was there and is gone; the marker has the time, and no other row differs. With an int64 marker a call fails if and only if the store is closed or the table does not allow it; then nothing changes |
| `Dbkv.ApplyHasDone` | app/dbkv/dbkv.go:291-457 | The specified table of a successful call is one in which the call has done so |
| `Dbkv.ApplyIfMay` | app/dbkv/dbkv.go:291-457 | A call is specified to succeed if and only if its value is accepted, its name denotes a key that is not the marker, and the row has the same format or, for a Delete, is there |
| `Dbkv.StepKeepsValid` | app/dbkv/dbkv.go:337-354 | One call keeps the table valid: marker there, int64 and invisible; other rows visible, normally named and readable |
| `Dbkv.RunKeepsValid` | app/dbkv/dbkv.go:291-457 | So does every sequence of calls, failing ones included |
| `Dbkv.FormatChangesOnlyByDeletion` | app/dbkv/dbkv.go:316-318 | Through any calls that do not delete it, a key keeps its row and its format |
| `Dbkv.StepFrame` | app/dbkv/dbkv.go:337-354 | In a valid table a call fails exactly when its own change does, and otherwise writes the marker and its own row and no other |
| `DbkvRefresh.LoadSnapshot` | app/dbkv/dbkv.go:159-182 | The loading loop yields the whole table if and only if every row is readable and the marker is an int64 |
| `DbkvRefresh.Snapshot.Refresh` | app/dbkv/dbkv.go:142-157 | An undisturbed refresh fails without touching the cache, or keeps a cache with the current marker, or stores the whole table |
| `DbkvRefresh.MarkerIdentifies` | app/dbkv/dbkv.go:147-150 | With distinct markers, a cached table whose marker was current during the call was itself current during the call |
| `DbkvRefresh.NilMeansFresh` | app/dbkv/dbkv.go:142-157 | Over every interleaving of writers, refreshes, closings and openings with distinct markers: a refresh that returns nil relied on the whole table as it was at some moment of the call, and the cache is always some whole committed table |
| `DbkvRefresh.ValidTablesLoad` | app/dbkv/dbkv.go:159-182 | A valid table always loads |
| `DbkvRefresh.CallAndRead` | app/dbkv/dbkv.go:142-146 | The first two steps of a refresh note the table and read its marker |
| `DbkvRefresh.ReadIs` | app/dbkv/dbkv.go:142-146 | A called refresh goes on with the marker’s text if and only if the store is open and the marker is there and readable |
| `DbkvRefresh.CommitMarks` | app/dbkv/dbkv.go:346-352 | The marker a committed call leaves is the decimal text of its time |
| `DbkvRefresh.TimesAreMarkers` | app/dbkv/dbkv.go:346-352 | So changes at different times carry different markers, and only those |
| `DbkvRefresh.UndisturbedIsExact` | app/dbkv/dbkv.go:147-156 | From there, undisturbed, it leaves the current table in the cache if and only if the cache was not another table with the same marker |
| `DbkvRefresh.ClosedFails` | app/dbkv/dbkv.go:120-140 | Closing empties the cache; a refresh called while the store is closed fails |
| `DbkvRefresh.OpensOnce` | app/dbkv/dbkv.go:78-97 | Opening a closed store caches a committed table; an open one stays as it is |
| `DbkvRefresh.SharedMarkerMisleads` | app/dbkv/dbkv.go:346-352 | Why markers must differ: a change committed under the marker already there leaves exactly that situation |
| `CacheKey.CacheItem.NewItem` | common/cache_helper/cache_helper.go:22-25 | Tag and key start as the joined segments, both empty without any |
| `CacheKey.CacheItem.Attr` | common/cache_helper/cache_helper.go:32-36 | Key and tag stay the colon-joined pieces: the name is added to both, the value to the key |
| `CacheKey.ColonFreeKeysDiffer` | common/cache_helper/cache_helper.go:27-31 | Without colons in the pieces, equal keys have equal pieces |
| `CacheKey.ColonsAreAmbiguous` | common/cache_helper/cache_helper.go:27-31 | With a colon in a value, one attribute can print as two |
| `CacheKey.UserItem` | app/users/user.go:76-114 | The item of each lookup has the key the lemmas speak of |
| `CacheKey.UserKeysDiffer` | app/users/user.go:76-114 | Lookups by id, email and token never share a key, whatever the email or token holds |
| `CacheKey.RateItem` | app/server/base/middleware/speed_limit.go:45-59 | The item of each counter has the key the lemmas speak of |
| `CacheKey.RateKeysDiffer` | app/server/base/middleware/speed_limit.go:43-60 | Distinct pairs of a route and a user or an address never share a counter, for every address text, when no route has a colon, as no registered path has |
| `CacheKey.RoutesCollide` | app/server/base/middleware/speed_limit.go:43-60 | For routes with any text: two can share a counter, for clients the middleware counts, if and only if one goes on from the other as an address would |
| `CacheKey.CountersAreNotUsers` | app/server/base/middleware/speed_limit.go:45 | No counter shares a key with a cached user |
| `CacheFlight.SetLocalKeeps` | common/cache_helper/cache.go:132 | Storing a loaded or relayed record locally keeps the invariant |
| `CacheFlight.TouchLocalKeeps` | common/cache_helper/cache.go:143 | So does a forced touch |
| `CacheFlight.ExpireRedisKeeps` | common/cache_helper/cache.go:145-147 | So does a forced expiry |
| `CacheFlight.OpenMakesCurrent` | common/cache_helper/cache.go:165-169 | Where the instance has no current flight, one begins, becomes current, and the lookup waits for it; the group stays exactly the flights under way |
| `CacheFlight.JoinKeeps` | common/cache_helper/cache.go:169 | Joining the current flight of the group keeps the invariant |
| `CacheFlight.ReleaseFrees` | common/cache_helper/cache.go:189-197 | A result is handed out and the worker is gone; for a flight its group entry, which was its own, is freed |
| `CacheFlight.KeepKeeps` | common/cache_helper/cache.go:174-187 | A record read from Redis is kept with the load it came from |
| `CacheFlight.StoreRedisKeeps` | common/cache_helper/cache.go:126-139 | What is written to Redis decodes to what was loaded, missing records included |
| `CacheFlight.AfterKeeps` | common/cache_helper/cache.go:112-208 | Every run keeps the invariant: stamps, TTLs, group entries and flights, results and replies |
| `CacheFlight.EveryResult` | common/cache_helper/cache.go:120-193 | Every answer of a flight or forced refresh is what a successful load gave, reported as existing exactly when there is a record, found within the limits of `CacheFlight.EveryReply`, and handed out no earlier than found; how much later, nothing bounds |
| `CacheFlight.EveryReply` | common/cache_helper/cache.go:151-207 | Every lookup gets its flight’s result, handed out between its joining and its reply, or a local entry seen as it replies, or its own cancellation. When it was found, a local entry was within its TTL or five seconds of a forced touch; a relayed one was live in Redis when read, and within the Redis limit, plus the time the relay took, plus its TTL |
| `CacheFlight.OneFlight` | common/cache_helper/cache.go:165-194 | At most one shared lookup per instance is under way in every run, whatever loads answer, derived from a group that only creates, joins and releases |
| `CacheFlight.OnlyLoadsAreCached` | common/cache_helper/cache.go:120-140 | Nothing is in either tier that no successful load answered, so no error is, and what Redis holds decodes to that answer |
| `CacheFlight.AgreesIfMet` | common/cache_helper/cache.go:121-140 | The existence a load reports and the one read back from the cached pointer agree if and only if the load met its contract: a record whenever it says there is one |
| `CacheCaps.TouchIs` | common/cache_helper/cache.go:143 | A forced touch gives a live local entry five seconds and changes nothing else |
| `CacheCaps.ExpireIs` | common/cache_helper/cache.go:144-148 | A forced expiry gives a live Redis entry sixty seconds; without Redis, or when it fails, no cache changes, and failing it fails the refresh |
| `CacheCaps.TouchCaps` | common/cache_helper/cache.go:142-149 | From any state, whatever happens after a forced touch, failing loads included: five seconds later the entry is gone unless it has been stored or touched again |
| `CacheCaps.ExpireCaps` | common/cache_helper/cache.go:142-149 | The same of Redis, sixty seconds after a forced expiry |
| `CacheCaps.LoadsAfterCaps` | common/cache_helper/cache.go:142-149 | In every run a forced refresh that waits to load, or has loaded or stored, has touched and then, with Redis, has set the expiry |
| `CacheAlone.ForcedAlone` | common/cache_helper/cache.go:120-149 | The steps of a forced refresh with nothing in between, case by case in terms of entries, TTLs and JSON text: what a failing expiry, a failing load and a load leave in both tiers, and the answer |
| `CacheAlone.LookupAlone` | common/cache_helper/cache.go:151-207 | The same of a lookup: it answers from a live local entry, else from a live Redis entry that decodes, keeping that locally, else from the load, storing it in both tiers |
| `CacheAlone.LookupTurns` | common/cache_helper/cache.go:151-207 | A lookup looks locally first, and joins or opens a flight only when that missed |
| `CacheAlone.FlightTurns` | common/cache_helper/cache.go:169-188 | Only flights look into the caches, local before Redis |
| `CacheAlone.ForcedTurns` | common/cache_helper/cache.go:142-149 | Only forced refreshes touch, and set the Redis expiry only then |
| `CacheFlight.LoadsHappened` | common/cache_helper/cache.go:120-124 | What counts as loaded is what a load step of the run answered, at that time |
| `CacheStale.TouchExactly` | common/cache_helper/cache.go:143 | A forced touch of a live entry lets a later lookup see it past a limit if and only if, before the touch, the limit is less than five seconds away |
| `CacheStale.KeepExactly` | common/cache_helper/cache.go:174-187 | A relay lets a later lookup see its entry past a limit if and only if its TTL is not zero and reaches past that limit; for both tiers’ limit, that is if and only if the clock is past the Redis limit of what it read when it stores it |
| `CacheStale.PastOnlyIfLate` | common/cache_helper/cache.go:120-207 | Over every run, whatever an answer comes from: a lookup replies past the limit of its answer only if the entry was relayed late or touched late, or the lookup joined a flight after the limit of what that had found, or waited for it past the limit; the last two always do |
| `CacheStale.InTimeDuringCall` | common/cache_helper/cache.go:151-207 | Unless the entry was late, the answer had been found and was in time at some moment while the lookup was asking, if and only if it did not join late |
| `CacheStale.EveryReplyBound` | common/cache_helper/cache.go:120-207 | The bound that holds of every reply: the moment before which its answer was found, plus the time the flight took from there to handing it out, plus the time until the lookup took it |
| `CacheJoin.JoinDecides` | common/cache_helper/cache.go:165-194 | Over every run after a join: the answer is the one the flight had found at the join, if it had; otherwise it is found no earlier than the join |
| `CacheJoin.JoinExactly` | common/cache_helper/cache.go:165-207 | In every state runs reach: a lookup that joins now can be answered past the limit by joining late if and only if the flight has already found its answer, in time, and its limit has passed |
| `CacheJoin.DeliverExactly` | common/cache_helper/cache.go:195-207 | A waiting lookup that takes its result now replies past the limit if and only if the limit of that result has passed |
| `CacheRuns.LateTouchPasses` | common/cache_helper/cache.go:142-149 | With the default TTLs, a run with a punctual relay and one late forced touch whose load fails answers past both tiers’ limit |
| `CacheRuns.SlowRelayPasses` | common/cache_helper/cache.go:174-187 | So does a run with a relay of ten seconds and no touch |
| `CacheRuns.SlowFlightPasses` | common/cache_helper/cache.go:165-194 | With the default TTLs and for every n: a lookup that joins a slow flight, sixteen seconds and n more after it read Redis, is answered at once and n seconds past the limit |
| `CacheRuns.SlowPeekPasses` | common/cache_helper/cache.go:165-173 | The same of a slow flight that saw a local entry relayed at once and never touched |
| `CacheRuns.StalenessIsUnbounded` | common/cache_helper/cache.go:142-149 | For every n, forced refreshes four seconds apart whose loads fail make a lookup answer, 4n seconds on, what the only successful load gave at the start |
| `UserStore.Store.GetCached` | common/cache_helper/cache.go:112-193 | Run to completion, a lookup answers what the table would, changes no entry of another key, and leaves exactly the specified entries |
| `UserStore.Store.Cap` | common/cache_helper/cache.go:143-146 | A forced lookup first gives live entries five and sixty seconds and revives none |
| `UserStore.Store.Load` | app/users/user.go:77-124 | The row that has the id, email or token, or none if none has |
| `UserStore.OtherQueries` | app/users/user.go:205-208 | Writing or removing one row changes no query but those of its old and new keys |
| `UserStore.Store.RefreshUserCache` | app/users/user.go:194-212 | Every id, email and token of the users is loaded afresh, and no other entry changes |
| `UserStore.Store.Create` | app/users/user.go:234-248 | The user is inserted with normalized access, under a new id if it had none, if and only if no row has its email or token; otherwise the specified error leaves everything alone. The caches stay coherent |
| `UserStore.Store.Update` | app/users/user.go:277-307 | Email, token, profile and normalized access are written if and only if no other row has the email or token, and the rest of the row stays; old and new keys are refreshed, other entries are untouched, the caches stay coherent |
| `UserStore.Store.Delete` | app/users/user.go:313-331 | The row goes and its keys become cached as not found; the caches stay coherent |
| `UserStore.Store.RecordLogin` | app/users/user.go:254-275 | The caches stay coherent if and only if no key of the row that the given copy lacks was cached |
| `UserStore.LoginDueIs` | app/users/user.go:260-262 | A login is stamped if there is none, or the last is more than five minutes old |
| `UserStore.StaleCopyRun` | app/users/user.go:254-275 | A run that reaches the other case: a user is created and looked up, the email changes, and the login of the old copy leaves the caches incoherent |
| `UserStore.CoherentIfUnseen` | app/users/user.go:271-273 | The reason: a stamped row leaves stale exactly the cached keys that were not refreshed |
| `UserStore.RowWritten` | app/users/user.go:287-305 | A row the unique indexes accept keeps the table valid and leaves only its old and new keys stale |
| `UserStore.Store.Run` | app/users/user.go:75-125 | Over every sequence of creates, updates, deletes, lookups and waits, each lookup answers what the table alone would at that moment |
| `AuthProtocol.AnyStretch` | app/server/base/api_handler/user/session.go:480-545 | Over any stretch of any run, from any state, admissions grow by at most what the counter held plus three for each code issued |
| `AuthProtocol.ThreeAttemptsEach` | app/server/base/api_handler/user/session.go:495-532 | For each email and purpose, admitted attempts never exceed three times the codes issued |
| `AuthProtocol.AdmittedOnlyByCounter` | app/server/base/api_handler/user/session.go:520-532 | An attempt is admitted if and only if its counter is live and positive; a missing or expired one admits nobody |
| `AuthProtocol.SuccessUsesTheCode` | app/server/base/api_handler/user/session.go:541-544 | After a success nobody is admitted until another code is issued |
| `AuthSteps.VerifyIs` | app/server/base/captcha/store.go:37-51 | A request passes its CAPTCHA if and only if the id has 26 characters, a CAPTCHA is stored under it and not expired, and the answer is its six characters; otherwise it is over; a live CAPTCHA is taken either way |
| `AuthSteps.ArriveIs` | app/server/base/api_handler/user/session.go:323-338 | A request arrives with an id and an answer, and waits for its CAPTCHA |
| `AuthSteps.PassedWasAnswered` | app/server/base/captcha/store.go:19-51 | In every run a CAPTCHA that has passed was generated, and answered, by a request that had arrived with its id, with the six characters it was generated with, before its time ran out |
| `AuthSteps.DecrementIs` | app/server/base/api_handler/user/session.go:519-532 | An attempt takes one from a live counter, or makes one of -1 for ten minutes, and is admitted if and only if something was left to take |
| `AuthSteps.GetIs` | app/server/base/api_handler/user/session.go:533-540 | An admitted attempt matches if and only if a code stored less than ten minutes ago has the digest of the six characters submitted |
| `AuthSteps.CooldownIs` | app/server/base/api_handler/user/session.go:480-487 | A code may be sent if and only if no cooldown runs for the email, whatever the purpose; one then runs for thirty seconds |
| `AuthSteps.StoreIs` | app/server/base/api_handler/user/session.go:492-502 | The digest of the code and a counter of three are stored for ten minutes |
| `AuthSteps.IssueGivesThree` | app/server/base/api_handler/user/session.go:492-502 | Right after a code is issued exactly three attempts are left |
| `AuthSteps.RightCodeWorks` | app/server/base/api_handler/user/session.go:514-545 | The issued code is accepted in all of its ten minutes while attempts are left, and is then gone with its counter |
| `AuthSteps.WrongCodeCosts` | app/server/base/api_handler/user/session.go:514-545 | Any other code is refused and costs an attempt |
| `AuthProtocol.VerifyKeeps` | app/server/base/captcha/store.go:37-51 | A CAPTCHA passes only if it never passed before, and a live one is gone whatever the answer |
| `AuthProtocol.RecordKeeps` | app/server/base/api_handler/user/session.go:323-338 | A guarded action spends a CAPTCHA no other action has spent |
| `AuthProtocol.CaptchasPayForAll` | app/server/base/api_handler/user/session.go:323-455 | Password checks, code attempts and codes issued together never exceed the CAPTCHAs passed, nor those the CAPTCHAs generated |
| `AuthCodes.SuccessMatchedTheLiveCode` | app/server/base/api_handler/user/session.go:533-540 | Every success submitted six characters with the digest of the code live at its GET: the last one issued under its key, less than ten minutes before, neither replaced nor used up by another success until then |
| `AuthCodes.GrantsApart` | app/server/base/api_handler/user/session.go:480-487 | In every run any two cooldowns granted to an email are at least thirty seconds apart |
| `AuthCodes.GrantsPerStretch` | app/server/base/api_handler/user/session.go:480-487 | In any T seconds of any run an email is granted at most T/30 + 1 cooldowns |
| `AuthCodes.CodesPerEmail` | app/server/base/api_handler/user/session.go:480-502 | In any T seconds of any run an email is sent at most T/30 + 1 codes over both purposes, besides those granted before and not yet sent; admitted attempts are at most three times as many, besides what the counters held |
| `RateLimit.Limiter.ConsumeRequest` | app/server/base/middleware/speed_limit.go:71-88 | Only the counter of the key changes; zero if and only if the request is admitted, otherwise the time to wait |
| `RateLimit.AnyInterval` | app/server/base/middleware/speed_limit.go:71-88 | Any half-open interval of k windows admits fewer than (k+1) times the limit, over every arrival sequence of any length in which no window is asked for 2^64 requests |
| `RateLimit.SparseIsFew` | app/server/base/middleware/speed_limit.go:75-82 | The count is that of the arrivals since the window opened, for sequences in which fewer than 2^64 come within one window length of any arrival; no window of those is asked for 2^64 requests |
| `RateLimit.BoundIsReached` | app/server/base/middleware/speed_limit.go:71-88 | That bound is reached |
| `RateLimit.RefusedOnlyWhenFull` | app/server/base/middleware/speed_limit.go:82-87 | A refusal means the whole limit has been admitted since the window opened, less than one window ago |
| `RateLimit.WaitingWorks` | app/server/base/middleware/speed_limit.go:75-80 | A refused client that waits as told, alone on its counter, gets through, whatever came before |
| `RateLimit.WaitingLessFails` | app/server/base/middleware/speed_limit.go:71-88 | One that comes back sooner than told is refused again |
| `RateLimit.WrappingAdmits` | app/server/base/middleware/speed_limit.go:82-85 | A remark on the proviso of the bounds, beyond all traffic: after a burst of 2^64 and the limit more, the count has wrapped and one window has let twice the limit and one more through |

## Left out

- HTTP handlers, routing, CORS, TLS, the command line, SMTP, GeoIP and the background-task wrappers: they only pass values on.
- `distort`, `strikeThrough`, `layoutDigits` and the palette colours of the picture: floating point or plain random numbers.
- The `float64` format of the key-value table: floating-point text; such a row is `Unsupported` in `Dbkv` and refused.
- Cryptography: the MAC is a parameter; bcrypt, SHA-256 and random bytes are not modelled.
- JSON, regular expressions and percent-decoding: parameters or abstract functions with the properties the code uses.
- MySQL collation, locking and SQL grammar: keys compare exactly. A uniqueness error names the email index whenever the email is taken.
- Unicode beyond single characters: case folding is ASCII, trimming knows the ASCII spaces, U+0085 and U+00A0; ill-formed UTF-8 in names is not modelled.
- The path filter of the documentation page, its fetch code and `injectDocsAuth`; properties inherited through JavaScript prototypes.
- The token candidate loop of the authentication middleware and the access checks behind it: plain membership tests.
- Read errors in the middle of a log file, write errors while showing, and the resolution of the log directory and level names.
- The order in which `sort.Slice` leaves files that compare equal: names in one directory differ, so none do.
- A LIKE pattern ending in its escape character: no pattern the code builds does.
- A nil token signer and the key derivation of `NewHMACTokenSigner`; an unready signer is modelled.
- Strict revocation across instances and single use of a code under simultaneous correct submissions: the documentation promises neither.
- Liveness: nothing says that a load, a refresh or a flight ever ends.
- LogTail.ShowIsTheTail: speaks of files that read without error; what an error does is part of `LogTail.Show`.
- DocsResolve.Situation.KeptPartIntact: speaks of a document that is a tree, as JSON parsing yields; `DocsPrune.Marker.Run` needs no such shape.
- UserStore.Store.Run: covers one instance with no Redis and no load errors; several instances and failures are the subject of `CacheFlight`.
- CacheFlight.EveryReply: one key on all instances; keys do not interact, and `CacheKey` says that distinct lookups have distinct keys. It speaks of loads that meet their contract, as `CacheFlight.AgreesIfMet` says they must.
- RateLimit.AnyInterval: assumes that no window is asked for 2^64 requests, for the reason `RateLimit.WrappingAdmits` gives; arrivals in all are not bounded.
- Dbkv.NamesAreNormal: folds ASCII letters and trims ASCII spaces, U+0085 and U+00A0; Unicode letters and spaces beyond those are not modelled.
- UserStore.Store.GetCached: a lookup that nothing interrupts or fails; load and Redis errors, shared flights and cancellation are the subject of `CacheFlight`.
- The value a cache item carries: it is set and passed on.
