# rama in Dafny

A Dafny 4.11 model of parts of the rama proxy framework, and proofs about it. Run
`dafny verify dfyconfig.toml` to check it.

A Rust `str` is a `string`; a byte is a character with a code below 256 (`Text.Byte`). Code that
updates fields or loops is modelled by classes and methods, each proved against a function or
predicate; the concurrent parts are state machines whose runs are arbitrary interleavings of atomic
steps.

| file | models |
|---|---|
| Text.dfy, Decimal.dfy, Utf8.dfy, HeaderMap.dfy | splitting, joining, trimming, ASCII case, numerals, UTF-8, header maps |
| Asn.dfy, ProxyFilter.dfy, UsernameParser.dfy, LabelRoundTrip.dfy | AS numbers, the proxy filter, its label parser and label writer |
| Username.dfy, Composing.dfy, UsernameStrings.dfy | the parser and composer objects, and whole usernames as strings |
| Datastar.dfy, DatastarRuns.dfy, DatastarStreams.dfy | the Datastar animation controller and its subscribers |
| Paths.dfy, KeyLogRegistry.dfy | the path normaliser and the registry of key log handles |
| FramingHeaders.dfy | Content-Length and Transfer-Encoding |
| Protocols.dfy | URI schemes |
| WsFilter.dfy | the WebSocket text filter of the MITM proxy example |
| JoinFutures.dfy, TypedHeaders.dfy | `Zip` and `TryZip`, typed header insertion |

## What is taken as given

- `norm`, the string filter normaliser (trim, lower case, NFC), is any function on strings. Where it
  matters it is assumed idempotent and, for whole usernames, to bring in no separator.
- `u32` parsing takes one leading `+`, as Rust's does; `HeaderValue::to_str` succeeds on tabs and
  visible ASCII; `SmolStr::new_inline` panics above 23 bytes; `PathBuf` pushes and pops components;
  tokio's broadcast channel of capacity 8 reports a lag to a receiver more than 8 messages behind.
- Opening a key log file is a step that yields a new handle or fails. An encoder is the sequence of
  batches it passes to `extend`; a decoder is a function on the values of a name. A future is what
  it answers at each poll.

## Where the code does less than it seems to promise

- A proxy filter with an empty list, or with the separator in a value or in the username, does not
  survive composing and parsing (`UsernameStrings.UsernameRoundTrip` gives the exact condition,
  `SeparatorBreaks` and `EmptyListDropped` give inputs).
- A username that parses need not compose again: `john-country-` stores an empty country, which the
  composer refuses (`UsernameStrings.CanonicalText` gives the exact condition,
  `BlankValueNotComposable` the input).
- Converting a borrowed string, and hence extracting the scheme of a URI, panics on valid custom
  schemes of 24 to 64 bytes (`Protocols.BorrowedAgrees`, `PrintExtract`, `LongSchemePanics`).
- The comment above the scheme table quotes the RFC 3986 grammar, but a scheme may start with a
  digit, `+`, `-` or `.` (`Protocols.SchemeGrammar`).
- A custom protocol equals a string in another letter case that does not convert to it
  (`Protocols.EqStrExact`, `EqStrNotConversion`).
- A reset stores an animation index of zero without announcing it; after a shutdown at that moment
  subscribers keep showing the old frame (`DatastarStreams.NoLostUpdate`,
  `DatastarRuns.ZeroNeverAnnounced`).
- `encode_to_value` keeps only the last `extend` call and panics when that call is empty
  (`TypedHeaders.OnlyValueExact`, `OnlyValueDiffers`).
- A `..` that leads above a relative path is dropped, so `../k` and `k` get the same key log handle
  although they name different files (`Paths.RelativeJoinLaw`, `ParentForgotten`).
- The key log documentation speaks of one handle per path string; the code keys by normalised path,
  and the model follows the code.

## Model

| member | source | states |
|---|---|---|
| Asns.AsnRoundTrip | rama-net/src/asn.rs:45-84 | parsing yields only numbers in the valid ranges, and an AS number is valid exactly when parsing its printed form gives it back |
| Asns.AsnTextExact | rama-net/src/asn.rs:60-84 | a digit string is an AS number exactly by its value, the reserved numbers 23456, 64496 to 131071 and from 4294967295 on being refused; one `+` in front changes nothing, and nothing else parses |
| Usernames.ProxyFilterUsernameParser.ParseLabel | rama-proxy/src/username.rs:45-164 | the parser object takes one label to the state and answer of the two-mode machine, for all eight keys, three flags, negation and aborts; `ReadWordExact` says which labels those are |
| ProxyFilters.ReadWordExact | rama-proxy/src/username.rs:134-155 | for every label, key and flag: without a leading `!` it is that key, or that flag on, exactly when its text without surrounding white space is the name in any letter case; with one it is that flag off exactly when the rest is, and never a key |
| Text.SameLetter | rama-proxy/src/username.rs:141-155 | equal up to ASCII case means: equal, or the upper and lower case of one letter |
| Text.TrimExact | rama-http-core/src/headers.rs:43 | trimming splits the text into characters to drop, the result, and characters to drop, with none of those at either end of the result |
| Text.TrimUnique | rama-http-core/src/headers.rs:43 | whatever lies between such characters and neither starts nor ends with one is what trimming yields |
| Usernames.ProxyFilterUsernameParser.Build | rama-proxy/src/username.rs:166-174 | fails exactly when a key is pending; the default filter is not stored |
| UsernameParser.RunRefinesFields | rama-proxy/src/username.rs:45-164 | on every label sequence the one-pass machine agrees with reading the labels in groups and each field on its own: same aborts, same ignored labels, same pending key, lists in order, last value for id and flags |
| LabelRoundTrip.ReadRender | rama-proxy/src/username.rs:134-155 | written groups read back as themselves, whatever their values spell |
| LabelRoundTrip.GroupsWrite | rama-proxy/src/username.rs:182-258 | the groups the writer emits hold, for each field, exactly that field's values |
| LabelRoundTrip.LabelsRoundTrip | rama-proxy/src/username.rs:45-262 | about label sequences, before the composer refuses empty ones: parsing the labels of a filter uses every label, leaves no key and gives the filter without its empty lists; the same filter exactly when it has none |
| LabelRoundTrip.ReachableValid | rama-proxy/src/username.rs:46-131 | every filter parsed without abort has a non-empty id, normalised strings, valid numbers and no empty list |
| LabelRoundTrip.Canonical | rama-proxy/src/username.rs:45-258 | about label sequences, before the composer refuses empty ones: parsing the labels of any parsed filter gives the same filter with every label used |
| LabelRoundTrip.FieldsDetermineResult | rama-proxy/src/username.rs:46-163 | two label sequences with the same values per field and the same pending key abort alike and end alike |
| LabelRoundTrip.GroupsCommute | rama-proxy/src/username.rs:46-163 | neighbouring groups of different fields commute anywhere in a sequence |
| LabelRoundTrip.IgnoredInert | rama-proxy/src/username.rs:132-163 | deleting all ignored labels leaves the final state and the other answers as they were |
| Usernames.ParseLabels | rama-core/src/username/parse.rs:47-64 | the loop succeeds exactly when every label of the whole sequence would be used and no key is left, and then yields what the parser built |
| Usernames.ParseUsername | rama-core/src/username/parse.rs:26-67 | the first piece is the username and must not be empty; the rest decides as above |
| Composing.Composer.WriteLabel | rama-core/src/username/compose.rs:52-65 | appends separator and label, and refuses exactly the empty label, behind its separator |
| Composing.WriteLabels | rama-proxy/src/username.rs:178-261 | succeeds exactly when no label of the filter is empty; appends all labels in the writer's order, or those up to and including the first empty one |
| Composing.EmptyLabel | rama-core/src/username/compose.rs:57-59 | a filter has an empty label exactly when some value of some field is empty |
| Composing.ComposeUsername | rama-core/src/username/compose.rs:83-90 | composes to the username and all labels joined by the separator, or fails |
| UsernameStrings.UsernameRoundTrip | rama-proxy/src/username.rs:586-654 | for every separator that spells no name or number: a composed username parses back to the same username and filter if and only if the username is not empty, the separator occurs in no part, and no list is empty |
| UsernameStrings.CanonicalText | rama-core/src/username/parse.rs:26-67 | for every text that parses: the result composes again if and only if no list value was normalised to nothing, and the composed text then parses to the same username and filter |
| UsernameStrings.BlankValueNotComposable | rama-core/src/username/compose.rs:57-59 | `john-country-` parses, and what it parses to is refused by the composer |
| UsernameStrings.SeparatorBreaks | rama-core/src/username/parse.rs:36 | a carrier `at-t` does not come back |
| UsernameStrings.EmptyListDropped | rama-proxy/src/username.rs:201-206 | an empty country list does not come back |
| DatastarStreams.StreamFromJoin | examples/http_sse_datastar_hello.rs:326-372 | whoever subscribes, in any state, starts with the next message: until it lags it has read as many messages from there as it received, and its stream ends exactly when it receives with more than 8 of them unread |
| DatastarStreams.ShowsWhatItRead | examples/http_sse_datastar_hello.rs:326-375 | in every interleaving a subscriber that has not lagged shows the delay and index it loaded, overlaid with exactly the messages it received, the first ones sent since it subscribed |
| DatastarStreams.NoLostUpdate | examples/http_sse_datastar_hello.rs:326-375 | in every interleaving a subscriber that has received all messages sent since it subscribed shows the current delay unless its signal is pending, and outside frame sends shows the current index exactly when it is not zero, or it loaded zero and no frame was sent since it subscribed |
| DatastarStreams.JoinAnytime | examples/http_sse_datastar_hello.rs:326-345 | in every state a new subscriber can join, shows the values of the moment and changes nothing else |
| DatastarStreams.CatchUp | examples/http_sse_datastar_hello.rs:362-371 | with at most 8 messages unread as many receives catch up |
| DatastarStreams.QueueHoldsEight | examples/http_sse_datastar_hello.rs:273 | until the runtime returns, commands can be sent exactly up to 8 waiting ones, and wait in order |
| DatastarStreams.ResetReplays | examples/http_sse_datastar_hello.rs:597-686 | a reset taken while stopped or playing and left undisturbed: the delay is stored and announced and every letter is played once, in order |
| DatastarStreams.ExitCloses | examples/http_sse_datastar_hello.rs:612-634 | an exit taken while stopped or playing: closed, three notices, the exit message, returned |
| DatastarStreams.ResetsDoNotStarve | examples/http_sse_datastar_hello.rs:641-661 | in every run no three resets are announced without a frame in between |
| DatastarStreams.TwoResetsInARow | examples/http_sse_datastar_hello.rs:679-683 | two are possible: while stopped with two resets waiting |
| DatastarRuns.ZeroNeverAnnounced | examples/http_sse_datastar_hello.rs:647-665 | a run that ends with everything received, the full message shown and the index at zero |
| DatastarRuns.AnimationSafe | examples/http_sse_datastar_hello.rs:639-686 | at every step of every run the index is a valid slice bound, and each frame broadcast is frame one right after a reset or the successor of the frame before it |
| DatastarRuns.FramesInSequence | examples/http_sse_datastar_hello.rs:657-676 | in a tracked log frame one follows a reset and frame n follows frame n-1 |
| DatastarRuns.ExitIsLast | examples/http_sse_datastar_hello.rs:612-634 | exit notices are in the log only once closed, closing never reverts, and nothing is broadcast after the exit message |
| DatastarRuns.CommandsInOrder | examples/http_sse_datastar_hello.rs:597-637 | no accepted command is lost or reordered, and each reset taken is announced once, in order |
| DatastarRuns.ComesToRest | examples/http_sse_datastar_hello.rs:585-687 | at most 68 runtime steps per command; at rest and not shut down everyone who kept up shows the whole message and the last delay asked for |
| DatastarRuns.SubscribersInvStep | examples/http_sse_datastar_hello.rs:326-375 | every step keeps, for every subscriber, that snapshot and backlog lead to the current values |
| Paths.NormalizePath | rama-tls-boring/src/keylog.rs:55-80 | the loop computes the fold of push and pop over the components |
| Paths.StackKeepsSurvivors | rama-tls-boring/src/keylog.rs:64-78 | the forward stack equals a backward reading in which each `..` cancels the nearest name before it, above an anchor that never moves |
| Paths.NormalizeExact | rama-tls-boring/src/keylog.rs:55-80 | prefix and root are kept, the rest are exactly the surviving names, and no `.` or `..` remains |
| Paths.NormalizeFixed | rama-tls-boring/src/keylog.rs:55-80 | idempotent, with exactly the paths free of `.` and `..` as fixed points |
| Paths.JoinLaw | rama-tls-boring/src/keylog.rs:55-80 | normalising the base first does not change the normal form of a joined relative path |
| Paths.JoinedComponents | rama-tls-boring/src/keylog.rs:55-80 | a join of component sequences is one again, with all components of both parts but an inner `.` |
| Paths.RelativeJoinLaw | rama-tls-boring/src/keylog.rs:71-73 | normalising the relative part of a join first changes nothing if and only if none of its `..` leads above it or the base has no name left |
| Paths.ParentForgotten | rama-tls-boring/src/keylog.rs:71-73 | `../k` and `k` have one normal form, yet joined to any base with a name left they differ |
| KeyLogRegistry.OneHandlePerPath | rama-tls-boring/src/keylog.rs:35-50 | in every interleaving no path is opened twice, two callers that succeed hold the same handle exactly when the paths they were called with normalise alike, and it is the handle opened for that path |
| KeyLogRegistry.LooksFirst | rama-tls-boring/src/keylog.rs:35-40 | from any state without a writer, whoever is reading, a call looks once under the read lock; a registered path ends it with its handle and nothing else changes |
| KeyLogRegistry.MissOpens | rama-tls-boring/src/keylog.rs:35-49 | an absent path and free locks: the call registers the new handle and returns it, or fails with map and locks as before |
| KeyLogRegistry.FailsByOpening | rama-tls-boring/src/keylog.rs:45 | in every run a caller has failed exactly when its own opening did |
| KeyLogRegistry.MapChange | rama-tls-boring/src/keylog.rs:42-49 | the map changes only by registering an absent path with the handle opened for it; a failed opening changes nothing |
| KeyLogRegistry.EntriesStay | rama-tls-boring/src/keylog.rs:42-49 | registered entries never change for the rest of any run |
| KeyLogRegistry.NoDeadlock | rama-tls-boring/src/keylog.rs:38-41 | while some caller is unfinished some caller can step |
| KeyLogRegistry.StepsBounded | rama-tls-boring/src/keylog.rs:37-49 | no caller takes more than six steps |
| FramingHeaders.FromDigits | rama-http-core/src/headers.rs:61-86 | yields a number exactly for non-empty digit strings of value below 2^64, namely that value |
| Decimal.ValueMonotone | rama-http-core/src/headers.rs:75-76 | an overflowing prefix means an overflowing whole |
| FramingHeaders.ContentLengthParseAll | rama-http-core/src/headers.rs:34-59 | yields n exactly when there is a line, all lines are visible ASCII and every member of every line, without its blanks, is the numeral of n |
| FramingHeaders.BlanksDoNotMatter | rama-http-core/src/headers.rs:43 | spaces and tabs put around the members of a line change neither the length it gives nor whether it ends in `chunked` |
| FramingHeaders.ReadableExact | rama-http-core/src/headers.rs:41 | a header value is readable exactly when all its bytes are below 128 |
| FramingHeaders.MembersDecide | rama-http-core/src/headers.rs:34-59 | the result depends only on the multiset of members over all lines |
| FramingHeaders.JoinedLines | rama-http-core/src/headers.rs:34-59 | several lines mean what one comma-joined line means |
| FramingHeaders.PrintedAgrees | rama-http-core/src/headers.rs:95-99 | a printed length is read back, and as no other number |
| FramingHeaders.SetContentLengthIfMissing | rama-http-core/src/headers.rs:95-99 | a missing length is set and parses as itself; a present one and all other headers stay |
| FramingHeaders.AfterLastIsLast | rama-http-core/src/headers.rs:114-123 | the text after the last comma is the last piece of the split |
| FramingHeaders.IsChunkedExact | rama-http-core/src/headers.rs:105-123 | chunked means: a line exists, the last one is readable and the last coding of all lines is `chunked` in any case |
| FramingHeaders.AddChunked | rama-http-core/src/headers.rs:125-142 | adds exactly one `chunked` at the end of all codings, changes no other, and the message then counts as chunked exactly when the former last line was readable |
| Protocols.ValidateSchemeSlice | rama-net/src/proto.rs:397-410 | accepts exactly 1 to 64 table characters |
| Protocols.SchemeGrammar | rama-net/src/proto.rs:397-453 | the RFC 3986 schemes of at most 64 bytes are the accepted ones that start with a letter |
| Protocols.ConversionRoundTrip | rama-net/src/proto.rs:215-271 | conversion yields protocols that print like the input up to case, and a protocol is one of these exactly when it converts back from its printed form |
| Protocols.EqStrExact | rama-net/src/proto.rs:309-321 | `p == s` exactly when s converts to a protocol printing like p up to case; that protocol is p unless p is custom and s differs from it in case |
| Protocols.EqStrNotConversion | rama-net/src/proto.rs:318 | `Custom("ftp")` equals `FTP`, which converts to another protocol |
| Protocols.BorrowedAgrees | rama-net/src/proto.rs:255-271 | the borrowed and owned conversions agree exactly where the borrowed one does not panic, which is on valid custom names above 23 bytes |
| Protocols.TryToExtract | rama-net/src/proto.rs:359-390 | the bounded scan decides by the first colon |
| Protocols.ExtractionCuts | rama-net/src/proto.rs:366-387 | success splits the input at its first colon, behind `://`, and the part before converts to the protocol |
| Protocols.ExtractExact | rama-net/src/proto.rs:359-390 | for every input: with a colon-free scheme of less than 512 bytes before `://` it yields the protocol, error or panic of converting it; no scheme is reported exactly for non-empty inputs without one, and the empty input is an error |
| Protocols.ExtractFoldsCase | rama-net/src/proto.rs:255-262 | each named scheme is extracted in any letter case |
| Protocols.PrintExtract | rama-net/src/proto.rs:359-390 | a printed protocol before any bytes is extracted leaving those bytes, exactly when its name fits in 23 bytes; otherwise a panic |
| Protocols.ExtractionStable | rama-net/src/proto.rs:359-390 | printing what was extracted in front of the rest extracts it again |
| Protocols.LongSchemePanics | rama-net/src/proto.rs:255-262 | a valid 24-letter scheme on which the borrowed conversion and the extraction panic |
| WsFilter.SplitWord | examples/http_mitm_proxy_boring.rs:577-593 | the byte scans return the encodings of the character-level prefix, core and suffix, and both cuts are character boundaries, for every word |
| WsFilter.PartsUnique | examples/http_mitm_proxy_boring.rs:577-593 | prefix, core and suffix are determined by: they make up the word, only the core has alphanumerics, and it starts and ends with one |
| Utf8.EncodeRoundTrip | examples/http_mitm_proxy_boring.rs:578 | the bytes of a character give it back, one to four by its range |
| WsFilter.RewriteWord | examples/http_mitm_proxy_boring.rs:534-561 | the rewriting on bytes is the encoding of the rewriting on characters |
| WsFilter.ReplacementExact | examples/http_mitm_proxy_boring.rs:536-554 | each of the eight replacements is given exactly for its word, in any letter case |
| WsFilter.FilterWordParts | examples/http_mitm_proxy_boring.rs:534-561 | a rewritten word keeps prefix and suffix around the replacement of its core, and has no listed core |
| WsFilter.WordsCut | examples/http_mitm_proxy_boring.rs:533 | a text is cut at every white space character: the words of `a`, one such character and `b` are the words of `a` and then those of `b` |
| WsFilter.WordsBase | examples/http_mitm_proxy_boring.rs:533 | the empty text has no words and a text without white space is its only word |
| WsFilter.FilterTextCorrect | examples/http_mitm_proxy_boring.rs:527-565 | for every text: same number of words, joined by single spaces, prefixes and suffixes kept, each core replaced as listed or kept, no listed core left, other words unchanged, and filtering twice is filtering once |
| JoinFutures.TakeZipFromParts | rama-core/src/lib.rs:125-134 | takes both outputs or puts both back |
| JoinFutures.Zip.PollOnce | rama-core/src/lib.rs:143-163 | polls exactly the unfinished inputs, is ready exactly when both have completed by this poll, with their outputs in order |
| JoinFutures.DriveZip | rama-core/src/lib.rs:92-163 | over any schedule the join is ready at exactly the later of the two completions, or never |
| JoinFutures.TryZip.PollOnce | rama-core/src/lib.rs:217-249 | polls only unfinished inputs, and the second one only if the first does not fail in this poll; ends at the first poll in which a polled input fails, else as for `Zip` |
| JoinFutures.DriveTryZip | rama-core/src/lib.rs:181-250 | over any schedule the first failure decides and when; without failures the later completion |
| JoinFutures.TryZipIsZip | rama-core/src/lib.rs:210-250 | without a failing input `TryZip` is `Zip` on the successes, in its outcome and in the polls each input sees |
| TypedHeaders.ToValues.Extend | rama-http-headers/src/map_ext.rs:68-86 | the first value ever replaces, later ones append, `Tmp` is never met, other names stay |
| TypedHeaders.TypedInsert | rama-http-headers/src/map_ext.rs:26-35 | leaves exactly the emitted sequence, or the old values if nothing was emitted, for every split into batches |
| TypedHeaders.TypedTryGet | rama-http-headers/src/map_ext.rs:44-54 | no header exactly without values, an error exactly when the values do not decode, else what they decode to |
| TypedHeaders.InsertThenGet | rama-http-headers/src/map_ext.rs:26-54 | an inserted header is read back exactly when its emitted values decode to it, and is an error exactly when they do not decode; with nothing emitted the old values decide |
| TypedHeaders.EncodeToValue | rama-http-headers/src/header.rs:50-54 | the first value of the last call, or a panic |
| TypedHeaders.OnlyValueExact | rama-http-headers/src/header.rs:81-87 | for every encoder that emits something: the single value is the first inserted one if and only if the last call emits something that starts like the first filled call; a panic if and only if the last call is empty |
| TypedHeaders.OnlyValueDiffers | rama-http-headers/src/header.rs:81-87 | two encoders on which it is the second call's value, or a panic |

## Left out

- The chat handler of examples/ws_chat_server.rs: it would only add easy members.
- WebSocket messages other than text, which the MITM filter drops.
- HTML, floating-point progress, SSE encoding, status ticks and the router of the Datastar example.
- Weak memory ordering, timers and fairness: each atomic or channel operation is one step of any task.
- Unicode tables of the string filter, and its `*` wildcard equality: filters are compared by their stored strings, which is stronger.
- Separators that occur in a key or flag name, in `!` or in numbers, for the username round trip; splitting and joining are proved for every separator.
- Tuple and exclusive parser combinators of rama-core/src/username/parse.rs.
- Directory creation and file writing of the key log; `PathBuf` is a sequence of components, not a byte string.
- The 256-entry scheme table is given as a function of the byte.
- The branch of `add_chunked` for an occupied entry without values, which such an entry never is.
- HTTP/2, connection pools, routing, DNS, TLS and the rest of the framework.
