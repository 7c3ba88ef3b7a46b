# Encrypted message relay: a verified model of its request-handling core

The relay stores ciphertext for clients it never decrypts. A client registers an Ed25519 public key
and receives two tokens. The *link token* is public: anyone who knows it can check that the client
exists, ask for permission to write to it and, once permitted, send it messages. The *fetch token*
is secret and is shown once; the server keeps only its SHA-256 hash. To read or acknowledge its
mailbox, or to manage permission requests, a client authenticates in one of two ways:
- it signs a single-use challenge nonce the relay issued (at most five outstanding per client, at
  least three seconds apart, each valid for 300 seconds);
- it presents `Authorization: Bearer <fetch token>`.

The model follows the program's three files, with the table logic and the route decisions
split out of them.

- `Store.Database` is the `Database` class of `database.py`. It is a Dafny class whose fields are
  the four MySQL tables (`clients`, `messages`, `challenges`, `message_requests`) held as
  sequences of rows, plus their auto-increment counters, the `connected` flag and an integer clock
  standing for `NOW()`. Every table operation is a method. A writer has a `modifies` frame, and
  its `ensures` states the whole new state (`Snapshot() == old(Snapshot()).(messages := …)`); a
  reader changes nothing and states the value it returns. Both cover the disconnected paths. Writers raise there; readers return
  `None`/`[]`/`False`.
- The table modules (`Clients`, `Messages`, `Challenges`, `Requests`) hold the pure functions those
  methods are specified by: selection, ordering, paging, marking, purging, the permission ledger.
  They also hold the lemmas about those functions: page order and maximality, cursor continuation,
  single use of challenges, rate-limit preservation, permission direction and finality.
- `Relay.Server` holds the routes of `app.py`, one method per route over a shared `Store.Database`.
  Each returns a `Response` (HTTP status plus JSON body). The pure decisions the routes take live in
  `Decisions`: credential selection, payload limits, throttling, page size and `has_more`.
- `Utils` is `utils.py` (sanitising, link validation, responses, token formatting). It rests on
  `Base64` (RFC 4648 sections 4 and 5, with a proved decode/encode round trip), `Text` (Python's
  `strip`, `split(' ')`, UTF-8 encoding and `int()`) and `Json`.

SHA-256, Ed25519 verification and `json.dumps`/`json.loads` are library code outside the model. They
are carried as function values in `Foreign.Primitives`, so every property holds whatever they
compute. Randomness (`secrets.token_bytes`) is a byte-sequence parameter, and the clock advances
only through `Store.Database.Tick`.

## Model

| member | source | states |
|---|---|---|
| Text.LeadingSpace | utils.py:93 | the number of characters `lstrip` drops: all of them whitespace, and the character after them, if any, is not |
| Text.TrailingSpace | utils.py:93 | the number of characters `rstrip` drops: all of them whitespace, and the character before them, if any, is not |
| Text.Strip | utils.py:93 | `str.strip()` returns the infix that starts right after the leading whitespace and is followed only by whitespace, with no whitespace at either of its own ends |
| Text.StripClean | utils.py:93 | stripping a string with no whitespace at either end returns it unchanged |
| Text.StripIdempotent | utils.py:93 | `strip` is idempotent |
| Text.Split | app.py:315 | `split(' ')` yields at least one piece and no piece contains the separator |
| Text.JoinSplit | app.py:315 | joining the pieces of a split with the separator gives back the original string |
| Text.SplitNoSeparator | app.py:315 | a string without the separator splits into itself alone |
| Text.SplitAppend | app.py:315 | a split at a separator splits the two sides independently, so the text after the first space never affects the first piece |
| Text.Utf8Char | app.py:305 | one character encodes to 1 to 4 bytes, and to its own code as a single byte exactly when it is ASCII |
| Text.Utf8 | app.py:305 | the encoding is at least as long as the string |
| Text.Utf8Ascii | app.py:305 | the UTF-8 bytes of an ASCII string are its character codes, one byte per character |
| Text.Decimal | app.py:334 | `str(n)` of a natural number is a non-empty run of ASCII digits |
| Text.DecimalValue | app.py:334 | the digits `str(n)` prints have value `n` |
| Text.RenderReads | app.py:334 | `str(n)` spells `n`: a minus sign for negatives, then the digits of the magnitude |
| Text.ParseReads | app.py:334 | `int()` of a string that spells `n` with no surrounding whitespace is `n` |
| Text.ParseRender | app.py:334 | `int(str(n)) == n` for every integer |
| Text.ParseInt | app.py:333-336 | `int(s)` succeeds exactly when the stripped string is an integer literal (an optional `+` or `-`, then digits with single underscores between them), with that literal's value; so `"12abc"`, `"5.0"` and every string without a digit are refused |
| Text.SignedDigitsParse | database.py:427-431 | `int()` reads a run of ASCII digits with an optional sign as the integer it spells |
| Text.SignedDigitsRender | database.py:427-431 | what Python prints for an integer is such a run, spelling that integer |
| Json.SqlId | database.py:427-431 | the integer MySQL compares an `id` with: an integer or boolean as itself, a signed decimal string as the integer `int()` reads from it; `null`, lists and dictionaries name none (the driver's handling of lists and dictionaries is under Left out) |
| Json.SqlIdRender | database.py:427-431 | an id sent as the text Python prints for it names that id |
| Json.IntOfAgrees | app.py:333-336 | `int()` reads a printed integer back, and agrees with the value of a JSON integer or boolean |
| Base64.Value | utils.py:16 | a character's alphabet value lies in 0..63 and names that character back; `=` has no value |
| Base64.ValueOfChar | utils.py:16 | every value 0..63 has an ASCII character whose value it is, in both alphabets |
| Base64.Encode | utils.py:39 | the encoding of `n` bytes has length `4 * ceil(n / 3)` |
| Base64.EncodeShape | utils.py:39 | an encoding is alphabet characters followed by exactly `(3 - n % 3) % 3` padding characters |
| Base64.Decode | utils.py:50 | a successful strict decode had a length divisible by 4 and yields 3 bytes per group, less padding |
| Base64.DecodeEncode | utils.py:50 | decoding an encoding gives back the bytes, in both alphabets |
| Base64.RStrip | utils.py:16 | `rstrip('=')` returns the longest prefix that does not end in `=`, having dropped only `=` |
| Base64.StrippedEncoding | utils.py:16 | stripping an encoding removes exactly its padding and leaves `ceil(4n / 3)` characters |
| Base64.StrippedLength | utils.py:16 | an unpadded encoding of `n` bytes has `ceil(4n / 3)` characters |
| Base64.EncodeSplit | utils.py:26 | an encoding is its stripped form followed by the padding that restores a multiple of 4 |
| Base64.SameEncoding | utils.py:16 | two encodings with equal stripped forms are equal |
| Base64.StrippedInjective | utils.py:16 | the unpadded encoding is injective on byte strings |
| Utils.RemoveForbidden | utils.py:92 | the result keeps exactly the characters of the input outside `< > " ' ; ( ) & +`, and a single character is kept exactly when it is allowed |
| Utils.RemoveForbiddenConcat | utils.py:92 | removal works on each part of a string separately, so with the single-character case the kept characters stay in their order and number |
| Utils.RemoveForbiddenClean | utils.py:92 | removal changes nothing in a string free of those characters |
| Utils.SanitizeInput | utils.py:86-94 | non-strings pass unchanged; a string becomes the infix of its forbidden-free form that starts after that form's leading whitespace and is followed only by whitespace, with allowed characters of the input only and no whitespace at either end |
| Utils.SanitizeIdempotent | utils.py:90-93 | sanitising twice is sanitising once |
| Utils.ValidateSecureLink | utils.py:96-111 | a link is valid exactly when it is a 32-character string of lowercase hex digits |
| Utils.SecureLinkNewline | utils.py:104-108 | the pattern alone accepts 32 hex digits and a final newline, and the length check is what rejects that |
| Utils.CreateResponse | utils.py:113-129 | `success`, `message` and `timestamp = None` are always present; `data` and `error_code` are present exactly when not `None`; no other key |
| Utils.ValidatePublicKey | utils.py:41-60 | a key is accepted exactly when it is a string that decodes to 32 bytes, and an accepted key has 44 characters |
| Utils.PublicKeyShape | utils.py:41-60 | every 32-byte key encodes to an accepted key |
| Utils.VerifySignature | utils.py:62-84 | a signature is accepted only if it decodes as base64 and the key decodes to 32 bytes, and then exactly when Ed25519 verification accepts it |
| Utils.HashToken | utils.py:28-32 | the hash of an ASCII token is the SHA-256 hex digest of its character codes |
| Utils.LinkTokenShape | utils.py:9-17 | 24 random bytes give `link_` followed by 32 URL-safe characters and no `=`: 37 characters |
| Utils.LinkTokenInjective | utils.py:14-17 | different random bytes give different link tokens |
| Utils.FetchTokenShape | utils.py:19-26 | 48 random bytes give 64 URL-safe characters and the `rstrip('=')` removes nothing |
| Utils.NonceShape | utils.py:34-39 | 32 random bytes give 44 ASCII characters: 43 from the standard alphabet and one final `=` |
| Clients.FindClient | database.py:131-140 | the lookup returns a row with that link token, and finds nothing exactly when none is registered |
| Clients.FindClientUnique | database.py:45 | with unique link tokens, looking up a row's token returns that row |
| Clients.AppendFresh | database.py:110-123 | inserting a client with a fresh token keeps tokens unique, finds the new row, and leaves other lookups unchanged |
| Clients.AppendWellFormed | database.py:44-45 | inserting with the next auto-increment id keeps ids increasing and tokens unique |
| Challenges.CountIsCardinality | app.py:235-238 | the count is the number of the client's rows that are unused and unexpired |
| Challenges.CountAppend | app.py:235-238 | inserting a challenge raises the count by one exactly when the new row is outstanding for that client |
| Challenges.CountAntitone | app.py:237 | the outstanding count never grows as time passes |
| Challenges.FindLive | database.py:273-288 | a returned challenge has that link token and nonce, is unused and unexpired; nothing is returned only when no such row exists |
| Challenges.FindLiveLatest | database.py:284-285 | with rows in creation order, the returned challenge is the most recently created live one |
| Challenges.MarkUsed | database.py:294-302 | exactly the rows with that id become used; every other row is unchanged |
| Challenges.CountMarkUsed | database.py:301 | marking a challenge used never raises any outstanding count |
| Challenges.MarkUsedIsFinal | database.py:294-302 | after marking, the lookup never returns that id, and returns nothing when it was the only live match |
| Challenges.Purge | database.py:308-316 | the purge keeps exactly the rows with `expires_at >= now`, in order |
| Challenges.CountPurge | database.py:315 | purging leaves every outstanding count unchanged |
| Challenges.PurgeBoundary | database.py:315 | a row expiring exactly now survives the purge yet is live for no lookup |
| Challenges.PurgeKeepsOrder | database.py:315 | the purge keeps ids increasing and creation times in order |
| Challenges.LatestCreated | app.py:242-246 | the newest creation time of a client's challenges, used or not, and none exactly when it has none |
| Challenges.TooFrequentMeans | app.py:247-248 | the cooldown rejects exactly when some challenge of the client is younger than 3 seconds |
| Challenges.AppendWellFormed | database.py:256-266 | inserting at the current time with the next id keeps the table ordered |
| Challenges.MarkUsedWellFormed | database.py:301 | marking used keeps the table ordered |
| Challenges.PurgeWellFormed | database.py:315 | purging keeps the table ordered |
| Challenges.ClockWellFormed | database.py:283 | the table stays well formed as the clock advances |
| Requests.PermissionIsDirected | database.py:404-413 | for every ledger, adding an accepted request from A to B permits A to write to B and leaves whether B may write to A as it was (unless A is B) |
| Requests.PendingFor | database.py:359-373 | the result is exactly the pending requests addressed to the client |
| Requests.PendingNewestFirst | database.py:370 | pending requests come newest first |
| Requests.FindRequest | database.py:419-431 | a returned request has that id, and nothing is returned only when no row has it |
| Requests.SetStatus | database.py:379-391 | exactly the rows with that id get the new status and `updated_at = now`; every other row is unchanged |
| Requests.AcceptGrants | database.py:386-391 | accepting a request grants its sender permission and revokes no existing permission |
| Requests.RejectGrantsNothing | database.py:386-391 | rejecting a request grants no new permission |
| Requests.AnsweredLeavesPending | database.py:369 | a request answered either way is no longer listed as pending |
| Requests.NewRequestGrantsNothing | database.py:347-352 | inserting a pending request changes no permission |
| Requests.AppendWellFormed | database.py:347-352 | inserting at the current time with the next id keeps ids and creation times ordered |
| Requests.SetStatusWellFormed | database.py:386-391 | a status update keeps the table ordered |
| Requests.ClockWellFormed | database.py:388 | the table stays well formed as the clock advances |
| Messages.Filter | database.py:199-209 | the selection holds only rows of the table that match the client, seen and cursor conditions |
| Messages.Newest | database.py:206-211 | a page holds at most `n` matching rows of the table |
| Messages.Oldest | app.py:343-344 | an ascending page holds at most `n` matching rows of the table |
| Messages.NewestIsReversedFilter | database.py:210-211 | the page is the first `n` of the matching rows taken in reverse table order |
| Messages.OldestIsFilterPrefix | app.py:343-344 | the ascending page is the first `n` matching rows in table order |
| Messages.FilterComplete | database.py:209 | every matching row is selected |
| Messages.PageLengths | database.py:211 | a page has `min(n, number of matching rows)` rows |
| Messages.NewestDescending | database.py:210 | with ids increasing through the table, page ids strictly decrease |
| Messages.OldestAscending | app.py:343-344 | with ids increasing through the table, ascending-page ids strictly increase |
| Messages.NewestMaximal | database.py:210-211 | a matching row left off the page means the page is full of rows with higher ids |
| Messages.OldestMaximal | app.py:343-344 | a matching row left off an ascending page means the page is full |
| Messages.NewestSameSelection | database.py:199-209 | two queries matching the same rows give the same page |
| Messages.NewestContinues | database.py:203-205 | a full page followed by the page before its last id equals one longer page: the `before_id` cursor skips and repeats nothing |
| Messages.MarkSeen | database.py:231 | each row is marked seen exactly when its id is listed and its link token is the caller's; nothing else changes |
| Messages.MarkSeenEffect | database.py:231 | a row's `seen` becomes true exactly where the update applies, is never reset, and no other field changes |
| Messages.AcknowledgedHidden | database.py:200 | after acknowledgement, an unseen-only page contains none of the acknowledged rows |
| Messages.AppendWellFormed | database.py:174-179 | inserting with the next auto-increment id keeps ids increasing and below the counter |
| Messages.MarkSeenWellFormed | database.py:231 | marking seen keeps the table well formed |
| Messages.ListedIds | database.py:230-232 | the ids named are exactly those MySQL reads from the entries of the list (`Json.SqlId`) |
| Store.PageSize | database.py:196-198 | a non-integer limit gives 50, and an integer limit is clamped to 1..200 |
| Store.NamedIds | database.py:228-232 | `*message_ids` unpacks a list into its entries, a string into its characters (so exactly its digits name ids) and a dictionary into its keys; anything else names none |
| Store.CharacterIds | database.py:230-232 | the ids a string unpacked into its characters names are exactly its digits |
| Store.CharacterIdsSound | database.py:230-232 | every id the characters of a string name is one of its digits |
| Store.CharacterIdsComplete | database.py:230-232 | every digit of a string is an id its characters name |
| Store.Provenance | database.py:255-266 | client IP and user agent are stored only when one of them is non-empty |
| Store.ChallengeOverflow | database.py:78-79 | no column is reported exactly when the stored address fits 45 characters and the user agent 255 |
| Store.Database.constructor | database.py:8-11 | a new store has empty tables, counters at 1 and the given connection state |
| Store.Database.RegisterClient | database.py:110-127 | raises when disconnected, then MySQL error 1406 for a text display name over 255 characters, then the duplicate-key error when the link token is taken; else appends one row with the key's SHA-256 and the next id and returns that id |
| Store.Database.GetClientByLinkToken | database.py:131-144 | returns the client with that link token, and nothing when disconnected or unknown |
| Store.Database.GetClientInfoByLink | database.py:321-338 | returns the token, display name and creation time of that client, and nothing when disconnected or unknown |
| Store.Database.VerifyFetchToken | database.py:146-162 | true exactly when connected, the client exists and the hash of the candidate equals the stored hash |
| Store.Database.StoreMessage | database.py:164-183 | appends one unseen row for the recipient with the next id (falsy metadata stored as NULL) and returns that id; raises when disconnected |
| Store.Database.GetMessages | database.py:185-219 | returns the newest matching rows, descending, at most the clamped limit; nothing when disconnected |
| Store.Database.GetMessagesOrdered | app.py:338-345 | the extended query the route calls: a `since_id` lower bound, and ascending or descending order |
| Store.Database.MarkMessagesSeen | database.py:221-236 | raises when disconnected, does nothing for falsy ids, raises for a non-sized value, else marks seen exactly the caller's rows whose ids `Store.NamedIds` reads from the value, decimal string ids converted as MySQL does |
| Store.Database.CreateChallenge | database.py:238-271 | appends one unused challenge expiring `expires_in` seconds from now with the next id and returns it; raises when disconnected, and raises 1406 naming the column when the stored address exceeds 45 or the user agent 255 characters |
| Store.Database.GetChallenge | database.py:273-292 | returns the newest unused, unexpired challenge matching token and nonce, and nothing when there is none or when disconnected |
| Store.Database.MarkChallengeUsed | database.py:294-306 | marks exactly that id used and changes nothing else; raises when disconnected |
| Store.Database.CleanupOldChallenges | database.py:308-319 | deletes exactly the challenges that expired before now |
| Store.Database.CountOutstanding | app.py:235-240 | counts the client's unused, unexpired challenges |
| Store.Database.LatestChallengeTime | app.py:242-246 | returns the newest creation time among the client's challenges |
| Store.Database.CreateMessageRequest | database.py:340-357 | appends one pending request with the next id, without deduplication; a `null` nickname violates NOT NULL and raises, and a text nickname over 255 characters raises 1406 |
| Store.Database.GetPendingRequests | database.py:359-377 | returns exactly the pending requests addressed to the client; nothing when disconnected |
| Store.Database.UpdateRequestStatus | database.py:379-395 | sets the status and update time of that id only; raises when disconnected |
| Store.Database.CheckMessagePermission | database.py:397-417 | true exactly when connected and an accepted request exists for that ordered pair |
| Store.Database.GetRequestById | database.py:419-435 | returns the request whose id MySQL reads from the parameter (`Json.SqlId`), and nothing when disconnected, the parameter names no id or no row has it |
| Store.RegisteredTokenAccepted | database.py:146-159 | a registered client's fetch token is accepted, and registering it changes no other client's verdict |
| Decisions.BearerToken | app.py:314-315 | the token taken from a Bearer header contains no space |
| Decisions.SelectCredentials | app.py:298-321 | the challenge path is taken exactly when signature and nonce are both truthy, and wins over a Bearer header; Bearer needs the `Bearer ` prefix |
| Decisions.BearerFirstWord | app.py:315 | the token is the first space-separated word after the prefix |
| Decisions.SelectBearer | app.py:314 | with no challenge fields, a `Bearer ` header selects the Bearer path with its token |
| Decisions.BearerTokenBeforeMore | app.py:315 | a token followed by a space and more text is read as the token alone |
| Decisions.BearerTokenRead | app.py:314-316 | a header `Bearer <token>`, with or without trailing words, presents exactly that token |
| Decisions.CheckPayload | app.py:163-176 | a payload passes exactly when it decodes and fits 16 KiB and its metadata fits 4 KiB; undecodable gives 400, too large gives 413 |
| Decisions.MessageSizeBoundary | app.py:166 | a payload of exactly 16384 bytes passes and one of 16385 bytes gets 413 |
| Decisions.ActionStatus | app.py:588-589 | only `accept` and `reject` are actions; `accept` means accepted, and neither leaves the request pending |
| Decisions.Throttle | app.py:240-248 | a challenge is refused exactly when five are outstanding or the newest is under 3 seconds old; the outstanding cap is checked first |
| Decisions.UnexpectedKeyword | app.py:338-345 | the first keyword argument the callee does not declare is reported, and none exactly when all are declared |
| Decisions.FetchCallRejected | app.py:338-345 | the call as written fails on `since_id`, and the extended query would accept it |
| Decisions.CoercedLimit | app.py:333-336 | `int(limit)` when that succeeds, and 50 when it raises |
| Decisions.EffectivePageSize | database.py:196-198 | the number of rows the query may return lies in 1..200 |
| Decisions.HasMoreAsWritten | app.py:363 | compares with the coerced limit: it agrees with the page-size comparison when that limit lies in 1..200, and a limit `int()` refuses compares with 50 |
| Decisions.HasMore | app.py:363 | the corrected comparison, against the page size applied, so reporting more needs a count in 1..200 |
| Decisions.HasMoreMissesRows | app.py:363 | as written, a limit of 500 over more than 200 matching rows reports no more rows though some were left out |
| Decisions.HasMoreInventsRows | app.py:363 | as written, a limit of 0 over no rows reports more rows |
| Decisions.HasMoreSound | app.py:363 | when `has_more` compares with the clamped page size and is false, every matching row is on the page |
| Relay.ChallengeFor | app.py:298-302 | a challenge is found exactly for the signed-challenge path with a string nonce when a live row for that token and nonce exists, and it is such a row |
| Relay.Check | app.py:297-324 | a client authenticates exactly when a live challenge exists and its key signed the UTF-8 bytes of the nonce, or when it presents an accepted fetch token; no live challenge and no credentials are distinguished |
| Relay.ReplayRejected | app.py:309 | once the challenge that authenticated a request is marked used, the same signed challenge is refused |
| Relay.IssueKeepsLimit | app.py:240-257 | issuing below the cap, then purging, keeps every client at five outstanding challenges at most |
| Relay.UseAndTimeKeepLimit | app.py:309 | marking a challenge used, or time passing, keeps the cap |
| Relay.MessageViews | app.py:348-356 | the loop builds one view per row of the page, in page order |
| Relay.StoredMessageView | app.py:350-356 | a stored message reads back in a fetch with its id, ciphertext and time, `seen` as 0, and with its metadata when that was truthy (`null` otherwise), given that `json.loads` inverts `json.dumps` |
| Relay.RequestViews | app.py:555-562 | the loop builds one view per pending request, in order |
| Relay.RequestedListed | app.py:555-561 | a filed request shows in its recipient's listing with its id, sender token, nickname and time |
| Relay.Shaped | app.py:358-371 | a 200 answer with the views of the page in order, its count, the `has_more` given, and the last id as `next_cursor` exactly when the page is not empty |
| Relay.ClientOf | database.py:131-144 | a client is found exactly when the store is connected and the token is a registered string, and it is the row with that token |
| Relay.Server.Lookup | app.py:179 | looking up a body's link token finds `ClientOf` that token |
| Relay.Verdict | app.py:283-324 | no verdict exactly when no client owns the token; a signed challenge that authenticates names a live challenge |
| Relay.IssuedLive | database.py:256-266 | the challenge just issued survives the purge and is live for the whole 300 seconds of its life |
| Relay.RegisterError | app.py:100-113 | registration is refused with 400 exactly when the key is missing, the key type is not `ed25519` or the key does not decode to 32 bytes |
| Relay.FetchPage | app.py:326-345 | the page holds at most the page size applied, only messages of the table that the request selects (`FetchQuery`), in increasing id order for `ASC` and decreasing otherwise |
| Relay.FetchPageComplete | app.py:363 | when the corrected `has_more` is false, the fetched page holds every matching message |
| Relay.PageResponseComplete | app.py:358-364 | a corrected answer that reports no further page holds every message the request selects |
| Relay.AsWrittenHidesRows | app.py:333-371 | as written, a limit of 500 over more than 200 selected messages answers a count of 200 with `has_more` false |
| Relay.Server.RespondAsWritten | app.py:338-371 | the fetch route's shaping, as written, over the rows `get_messages` returns is `FetchResponseAsWritten` |
| Relay.RequestIdsUnique | database.py:419-431 | with increasing ids, looking a request up by its id returns that request |
| Relay.Server.Register | app.py:91-143 | refusals leave the store unchanged; a text display name over 255 characters answers 500 with MySQL error 1406; 201 exactly when the checks pass, the store is connected, the display name fits and the new token is free; then exactly one client row is added, holding the sanitised display name and only the hash of the fetch token, and the plaintext token, returned once, is accepted for the new link token |
| Relay.Server.Enrol | app.py:115-127 | the client row is stored exactly when the store is connected, the display name fits its column and the link token is free, and the token whose hash it holds is then accepted |
| Relay.Welcome | app.py:133-140 | the 201 answer carries the new id and both tokens |
| Relay.Server.SendMessage | app.py:145-211 | the refusals in order: missing fields 400, then the payload check's status, then an unknown recipient 404, then an unknown truthy sender 404, then a sender without permission 403 with `action_required: request_permission`; otherwise 201 and exactly the message appended (`Stored`); a refusal changes nothing |
| Relay.Server.Deliver | app.py:183-208 | a named sender without permission gets 403 with `action_required: request_permission` and nothing changes; without a sender, or with permission, 201 with the next id and exactly the message appended |
| Relay.Server.ChallengeRequest | app.py:213-261 | 400 without a link token, 404 for an unknown one, 429 with the throttle's text when it refuses, 500 with MySQL error 1406 when the address or user agent overflows its column; otherwise 200 with the nonce, and the tables become `Issued`: the new row appended, then the purge; any other status changes nothing |
| Relay.Server.Issue | app.py:252-258 | an overflowing address or user agent fails and changes nothing; otherwise returns the next id and the tables become `Issued`: one unused row expiring 300 seconds from now appended, the expired rows purged, the counter raised by one; the cap keeps holding |
| Relay.Server.Authenticate | app.py:290-324 | the outcome is `Check` on the state before the call; only a successful signed challenge is marked used, so a bad signature does not burn the nonce |
| Relay.Server.Admit | app.py:283-324 | admits exactly a known client whose credentials pass `Check`, consuming its challenge; otherwise 404 for an unknown client, else 401 with the fetch route's named failure or `Authentication failed`, with the challenges unchanged |
| Relay.Server.Guard | app.py:394-419 | the shared gate of the other authenticated routes: admits exactly when `Relay.Check` authenticates a known client, else 404 for an unknown client and a bare 401 `Authentication failed` |
| Relay.Server.FetchMessages | app.py:263-376 | as written, never 200: 400 without a link token, 404 for an unknown one, 401 with the named failure, and every authenticated fetch 500 with the keyword error, with the challenge consumed |
| Relay.Server.FetchMessagesIntended | app.py:326-373 | 400, 404 and 401 as the route as written; 200 exactly when authenticated, returning exactly `PageResponse` of `FetchPage`; when `has_more` is false the page holds every matching message |
| Relay.Server.Acknowledge | app.py:421-430 | after authentication: 500 with the `len()` error for ids without a length, else 200 with the count and exactly the caller's listed messages marked seen |
| Relay.Server.AcknowledgeMessages | app.py:378-430 | missing fields 400, an unknown link token 404, failed credentials 401; an authenticated caller gets 200 with the submitted count when the ids have a length, and 500 with Python's `len()` error otherwise; 200 marks exactly the caller's listed messages seen; nothing but spent challenges and `seen` flags changes |
| Relay.Server.CheckContact | app.py:432-462 | 200 exactly for a body with a link token; `exists` is true exactly when the client is registered, with its nickname |
| Relay.Server.RequestMessagePermission | app.py:464-508 | 400 without both tokens; an unknown sender 404 before an unknown recipient 404; an existing grant 200; otherwise a `null` nickname 500 (error 1048), an over-long one 500 (error 1406), else 201 with the next request id and exactly one pending request appended; no outcome changes any permission |
| Relay.Server.Petition | app.py:490-505 | an existing grant gives 200 and changes nothing; without one, a `null` or over-long nickname gives 500 and changes nothing, and any other nickname gives 201 with the next request id and exactly one pending request appended |
| Relay.Server.GetMessageRequests | app.py:510-570 | a missing link token 400, an unknown one 404, failed credentials 401; an authenticated caller gets 200 with the views of exactly its pending requests, newest first |
| Relay.Server.RespondMessageRequest | app.py:572-641 | missing fields 400, then an action other than accept or reject 400, then an unknown link token 404 and failed credentials 401; for an authenticated caller `Responded`: the request the id names (`Json.SqlId`) missing 404, addressed to someone else 403, already answered 400, else 200 with the new status; only a 200 changes a request, and only its status and update time; clock, counters and the other tables never change |

## Left out

- Connection set-up, table creation, migrations, process start-up, the health endpoint, Flask
  request and response plumbing, and the `BASE_URL` environment lookup: the store takes a
  `connected` flag, and the base URL is a parameter of `Relay.Server.Register`.
- Logging (`print`, `log_security_event`) and concurrency: the model is sequential, so races
  between the rate-limit reads and the insert that follows are not modelled.
- Randomness is a parameter (the bytes `secrets.token_bytes` would return). SHA-256 and Ed25519
  verification are uninterpreted function values. The PyNaCl key constructors that
  `validate_public_key` calls are taken to accept any 32-byte key, so key validation checks
  only that the key decodes to 32 bytes. `hmac.compare_digest`'s constant time is not expressible.
- Timestamps are integers (seconds on the store's clock), so `created_at` appears as a number
  where the program prints ISO 8601 text. The `seen` flag is answered as the integer 0 or 1 the
  driver returns for a `BOOLEAN` (`TINYINT(1)`) column.
- `Base64.Decode` is a strict RFC 4648 decoder. Python's `b64decode` discards characters outside
  the alphabet, so the program accepts some payloads, keys and signatures that the model refuses.
- Text comparison is exact. MySQL's `utf8mb4_unicode_ci` collation compares link tokens and
  nonces case-insensitively, and a non-string token, which MySQL would coerce, matches nothing here.
- Request bodies are JSON objects. A non-object body, unparsable JSON and floating-point numbers
  are not modelled. `Text.ParseInt` accepts ASCII digits only, where Python's `int()` also reads
  other Unicode decimal digits.
- The `Invalid metadata JSON` branch of the send route is unreachable for parsed JSON and is not
  modelled. The text of MySQL's duplicate-key error is abbreviated.
- The SQL-error branches the program swallows, such as the rate-limit `except: pass`, are not
  modelled.
- Column widths assume MySQL's strict SQL mode (the default), where a value longer than its
  `VARCHAR` column makes the insert raise error 1406; a server in non-strict mode would truncate
  the value instead.
- Json.SqlId: MySQL converts any string it compares with an integer column by its longest numeric
  prefix, so `"5abc"`, `" 5"` and `"5.0"` name 5 and text without a number names 0. The model
  converts only ASCII digits with an optional sign; other strings name no id in
  `Store.Database.GetRequestById`, `Store.NamedIds` and the fetch cursors of `Relay.FetchQuery`,
  where such a cursor is ignored instead of being compared as 0. The driver also escapes a list
  parameter as a parenthesised tuple and refuses a dictionary, where the model names no id for
  either: `request_id: [5]` finds row 5 in the program (`id = (5)`) and nothing here, and in
  `message_ids` an entry `[5]` marks row 5 while an entry `[1, 2]`, `[]` or `{}` makes the
  update raise, so the acknowledge route answers 500 where the model marks the other entries and
  answers 200.
- Store.Database.RegisterClient: a display name that is not a string is stored as the JSON value
  itself, where MySQL stores its text (`5` comes back as `"5"`) and the driver refuses a list or
  a dictionary.
- Store.Database.CreateMessageRequest: the same holds for a nickname that is not a string.
- Relay.Server.CheckContact: a display name stored that way comes back as that JSON value (`5`
  where the program answers `"5"`).

## Findings

| source | as written | input that shows it | evidently intended | confidence | as-written member | corrected member |
|---|---|---|---|---|---|---|
| app.py:338-345 | the fetch route passes `since_id` and `order` to `get_messages`, which declares only `include_seen`, `limit` and `before_id` (database.py:185), so the call raises `TypeError` and the route answers 500 after the challenge was already marked used | any authenticated fetch, e.g. one with a valid Bearer token | a query with a `since_id` lower bound and `ASC`/`DESC` order, answering 200 with the page | not executed | Relay.Server.FetchMessages, Decisions.FetchCallRejected | Relay.Server.FetchMessagesIntended, Store.Database.GetMessagesOrdered |
| app.py:363 | `has_more` compares the row count with the requested limit, not with the clamped page size the query used | limit 500 with more than 200 matching rows gives 200 rows and `has_more` false; limit 0 with no rows gives `has_more` true | compare with the clamped page size, so that a false `has_more` means the page holds every matching row | not executed | Decisions.HasMoreAsWritten, Relay.AsWrittenHidesRows, Decisions.HasMoreInventsRows | Decisions.HasMore, Relay.PageResponseComplete, Relay.FetchPageComplete |
