# CycleTLS, modelled and proved in Dafny

CycleTLS is a Python HTTP client over a Go engine that makes its TLS and HTTP/2 handshakes look like a
chosen browser's. This project models the logic underneath the network code and proves what the library
is for: a fingerprint read back from the hello it emits is the one asked for, no request is lost or
answered twice, frames arrive in order, and its caches agree with something simple.

`dafny verify dfyconfig.toml` checks everything.

| module | what it covers |
|---|---|
| `Text`, `StableSort`, `ClientHello`, `Machine` | shared groundwork: byte strings and numbers, stable sorting, what a hello shows on the wire, runs of a step function |
| `WireOrder`, `Ja4r`, `Ja4rCompiler`, `Ja4rPreservation`, `Ja4rContent` | the JA4_r parser and compiler, wire-order restoration, meaning preservation, groups and key shares |
| `Ja3`, `Ja3Preservation`, `Ja3Upgrade`, `Ja3Dispatch`, `Ja3Content` | the JA3 compiler, meaning preservation, key shares, the TLS 1.3 upgrade, the route a dial takes, the content of every extension |
| `Http2Fingerprint` | the HTTP/2 fingerprint parser and printer |
| `Batcher`, `BatchFfi` | the Python request batcher and the Go batch call behind it |
| `AsyncHandles` | asynchronous handles, in the channel and the flag variant |
| `WebSocket`, `FrameCodec`, `ResponseStream` | the WebSocket dispatcher, the byte frames, the HTTP response stream |
| `ConnectionHandoff`, `LostConnections`, `ClientPool`, `CookieJar` | the transport and connection caches, also under concurrent requests, the sharded client pool, the recording cookie jar |
| `Sse` | the server-sent event reader and its dispatch loop |

Protocols are state machines: a partial step function over a state and an action, where every choice of
the scheduler, the clock, the peer or the caller is an action. A statement about all action sequences is
then a statement about all interleavings. Loops and objects of the source are methods and classes, each
proved equal to a specification function whose properties are proved separately.

## What the code does not do

Each of these is proved, with the exact condition under which the code behaves as described.

- Extensions that the JA3 hint does not list do not always go last, although the comment above
  `orderByWireOrder` (which `orderExtensionsByWireOrder` refers to) says they do: an unknown id is looked
  up as id 0 (`WireOrder.UnlistedExtensionsGoLastIff`).
- A JA4_r fingerprint of TLS 1.3 without extension 43 reads back as TLS 1.2, as do all of TLS 1.0 and 1.1; key
  shares are dropped below TLS 1.3; and forcing HTTP/1 replaces the ALPN code
  (`Ja4rPreservation.PrintedFingerprintReadsBack`). A JA3 hint may leave key shares unlisted
  (`Ja4rContent.KeySharesListedIff`).
- A TLS 1.3 JA3 may lose groups or gain two, and one that claims version 772 never reads back, since the
  legacy version of a hello stops at 771 (`Ja3Preservation.CompilePreservesFingerprint`). On the default
  route, which upgrades TLS 1.2 fingerprints, a JA3 without TLS 1.3 groups is changed
  (`Ja3Dispatch.DispatchPreservesFingerprint`). Key shares may name groups that are not listed
  (`Ja3Preservation.KeySharesListedIff`).
- HTTP/2 priority weights 0 and above 256 do not survive a round trip (`Http2Fingerprint.WeightShift`).
- A future cancelled between the batcher's test and its write ends the worker thread for good
  (`Batcher.CancelRace`, `Batcher.GoneWorkerAnswersNothing`).
- Two polls of one handle in the flag variant can end in a double deletion (`AsyncHandles.LoadDoomsIff`).
- Body bytes that arrive together with a read error or a cancellation are dropped
  (`ResponseStream.BodyCompleteIff`).
- Connections are abandoned unclosed when a fingerprint or preset is rejected after dialling
  (`LostConnections.MoveDropsIff`), and forgotten when a redial through a swept transport, or a plain http
  request for the same address, comes between a request's check and its dial (`LostConnections.DiscardIff`).
- A request whose transport is swept before it reads the cache again panics (`LostConnections.UsePanicsIff`).
- A cookie that the final response deletes is still reported (`CookieJar.ReportIsCurrentIff`).
- The event-stream dispatcher never notices the end of a stream: the reader reports it as neither event
  nor error (`Sse.DispatchEndsIff`). Its reader also carries an event type over empty lines
  (`Sse.TypeAgreesIff`).

Two details of the compilers matter for the model. The table of signature schemes is keyed by name but
looked up by a hexadecimal spelling, so a lookup never succeeds and raw values are used; and every entry
of the cipher suite table maps an id to itself.

## Model

| member | source | states |
|---|---|---|
| `WireOrder.BuildWireRank` | golang/utils.go:811-819 | the loop ranks exactly the listed ids, each by its first position |
| `WireOrder.ComparatorsAreKeys` | golang/utils.go:846-853 | both sort comparators are comparisons of an integer key, hence strict weak orders |
| `WireOrder.OrderIsStableSort` | golang/utils.go:841-872 | both order functions, early returns included, are the stable sort by that key |
| `WireOrder.CipherOrderUnique` | golang/utils.go:841-855 | the cipher order is the one and only stable permutation sorted by the comparator's key |
| `WireOrder.ExtOrderUnique` | golang/utils.go:858-872 | the same for extensions |
| `WireOrder.CipherOrderRecovers` | golang/utils.go:811-855 | any permutation of a duplicate-free capture is sorted back into exactly the capture |
| `WireOrder.ExtOrderRecovers` | golang/utils.go:811-872 | the same for extensions, also with an ALPS draft id written as the other |
| `WireOrder.UnlistedCiphersGoLast` | golang/utils.go:839-855 | ciphers the capture lacks come last, in their original order |
| `WireOrder.UnlistedExtensionsGoLastIff` | golang/utils.go:824-872 | an unlisted extension precedes a listed one exactly when id 0 is captured and the listed one ranks after it or ties behind it |
| `WireOrder.UnlistedExtensionOvertakes` | golang/utils.go:824-872 | a family of inputs on which an unlisted extension overtakes a listed one |
| `Ja4r.ParseHexFields` | golang/utils.go:681-724 | the list loop accepts exactly the comma-separated 16-bit hex lists, prefix optional |
| `Ja4r.ParseJa4rString` | golang/utils.go:592-737 | the parser step by step equals its specification, all error returns included |
| `Ja4r.ParseOfPrint` | golang/utils.go:592-737 | parsing a printed JA4_r fingerprint gives back every component |
| `Ja4r.PrintInjective` | golang/utils.go:592-737 | distinct fingerprints have distinct printed forms |
| `Ja4r.OneDigitCount` | golang/utils.go:657-680 | a one-digit count in front of no digit is read as such |
| `Ja4r.TwoDigitsBeforeOther` | golang/utils.go:638-657 | two digits in front of anything but an h are one digit of count, and the second begins the ALPN code |
| `Ja4r.PrefixOptional` | golang/utils.go:686-690 | a 0x in front of a code point changes nothing |
| `Ja4r.AcceptedShape` | golang/utils.go:592-737 | what every accepted string looks like and where each component comes from |
| `Ja4rCompiler.MapCiphers` | golang/utils.go:910-920 | mapping raw ciphers through the suite table changes nothing |
| `Ja4rCompiler.BuildExtensions` | golang/utils.go:970-975 | the extension loop builds one entry per id that has an extension, in order |
| `Ja4rCompiler.BuildBase` | golang/utils.go:922-998 | server name by deficit, listed extensions, then ALPN |
| `Ja4rCompiler.ReplaceGroups` | golang/utils.go:1006-1022 | only the first supported_groups entry takes the hint's groups |
| `Ja4rCompiler.ReplaceCompression` | golang/utils.go:1024-1038 | only the first compress_certificate entry takes Firefox's algorithms |
| `Ja4rCompiler.GreaseAll` | golang/utils.go:1047-1058 | GREASE goes in front of versions, groups and key shares and nowhere else |
| `Ja4rCompiler.BuildSpec` | golang/utils.go:878-1079 | the compiler step by step equals the specification that the preservation theorems are about |
| `Ja4rPreservation.BaseEntriesGood` | golang/extensions.go:228-373 | before reordering the ids are the listed ones that exist at the version, with ALPN last and the server name first iff the claimed count leaves room; every built extension carries its own id and the requested content |
| `Ja4rPreservation.EntriesFollowIds` | golang/utils.go:858-872 | built extensions are ordered exactly as their ids are |
| `Ja4rPreservation.ForcedHttp1` | golang/utils.go:940-943 | forcing HTTP/1 compiles the same hello as asking for h1 |
| `Ja4rPreservation.CompilePreservesFingerprint` | golang/utils.go:878-1079 | for every canonical fingerprint of TLS 1.0 to 1.3 and all settings the hello reads back as the fingerprint: ciphers, extensions that exist at the version, signature schemes, counts, server name flag; ALPN unless HTTP/1 is forced, TLS 1.3 as far as extension 43 shows it and TLS 1.2 otherwise |
| `Ja4rPreservation.VisibleIff` | golang/extensions.go:320-349 | the fingerprint reads back unchanged iff it is TLS 1.3 with extension 43, or TLS 1.2 without extension 51, and ALPN is not overridden |
| `Ja4rPreservation.PrintedFingerprintReadsBack` | golang/utils.go:592-1079 | the printed strings agree under exactly that condition |
| `Ja4rPreservation.HintRestoresWireOrder` | golang/utils.go:1000-1004 | with the originating JA3 as hint, ciphers and extensions go out in exactly the captured order, for every version and all settings |
| `Ja4rContent.FindAfterGroups` | golang/utils.go:1009-1022 | the hint's groups replace what a reader finds under id 10 and nothing else |
| `Ja4rContent.FindAfterCompression` | golang/utils.go:1024-1038 | Firefox's certificate compression replaces what is found under id 27 and nothing else |
| `Ja4rContent.CompiledSays` | golang/utils.go:1040-1064 | read off the settings alone: a Chrome agent that does not switch it off gets GREASE as first cipher, as first and last extension and in front of versions, groups and shares; any other hello has none but what the hint's groups bring; and server name, groups, points, compression, versions and shares have exactly their content |
| `Ja4rContent.CompiledVersions` | golang/utils.go:889-908 | the version bounds of the hello for each claimed version |
| `Ja4rContent.CompiledAlpn` | golang/utils.go:977-998 | the protocols behind each ALPN code, HTTP/1.1 alone when forced, and the signature schemes as given |
| `Ja4rContent.Defaults` | golang/extensions.go:256-290 | outside the canonical fingerprints: the nine default schemes when none are given, and an unknown ALPN code as the one protocol |
| `Ja4rContent.BadHintIgnored` | golang/utils.go:789-802 | a hint list with a field that is no 16-bit number counts as empty, and then nothing is reordered |
| `Ja4rContent.CompiledContent` | golang/utils.go:1000-1079 | groups, point formats, key shares and legacy version of every hello compiled from a canonical fingerprint |
| `Ja4rContent.KeySharesListedIff` | golang/extensions.go:335-349 | every share's group is listed (section 4.2.8 of RFC 8446) iff extension 10 is listed and the hint names no groups or all three shared ones |
| `Ja4rContent.OldHintBreaksShares` | golang/utils.go:1009-1022 | a hint without the hybrid group sends its share unlisted |
| `Ja4rContent.HelloHasHintJa3` | golang/utils.go:1000-1022 | with the JA3 of the same capture as hint, the hello's own JA3 is that JA3 iff it claims 771, its groups are GREASE-free and present when extension 10 is, and its point formats are the uncompressed one |
| `Ja3.CollectGroups` | golang/utils.go:203-252 | the group loop fails iff a field does, and otherwise yields the filtered groups or the fallback |
| `Ja3.SpliceHybrid` | golang/utils.go:256-277 | the hybrid share goes right behind the leading GREASE shares |
| `Ja3.CollectExts` | golang/utils.go:305-323 | the extension loop with its GREASE insertions, failing on the first unknown field |
| `Ja3.ParseFields` | golang/utils.go:279-287 | a number loop accepts exactly the lists whose every field parses |
| `Ja3.AssembleHello` | golang/utils.go:297-346 | versions, extensions and ciphers put together |
| `Ja3.BuildSpec` | golang/utils.go:183-347 | the compiler step by step equals the specification that the theorems are about, the too-few-fields panic included |
| `Ja3Preservation.CompiledFields` | golang/utils.go:183-347 | compiling a well-formed JA3 succeeds and the hello carries its ciphers, extensions, points, kept groups and version in order |
| `Ja3Content.CompiledSays` | golang/utils.go:1149-1294 | every compiled hello has the claimed version and the one below as bounds, its ciphers behind Chrome's GREASE, and under each listed id exactly the content of that extension: versions, ALPN, signature schemes, groups, points, compression, key shares |
| `Ja3Content.ExtsGreased` | golang/utils.go:305-323 | for Chrome a GREASE extension stands first and in front of each padding extension, and nowhere else; for others there is none |
| `Ja3Content.ChromeUnlessFirefox` | golang/utils.go:66-76 | every agent counts as Chrome except those that name Firefox and not Chrome, in any case |
| `Ja3Content.CompatibleGroups` | golang/utils.go:394-433 | exactly the thirteen groups of the table are kept for TLS 1.3 |
| `Ja3Content.KnownIds` | golang/utils.go:1190-1294 | exactly the ids of the extension table are known |
| `Ja3Content.KeyOfIff` | golang/utils.go:312-316 | a field names an extension iff it is the canonical decimal of a known id |
| `ClientHello.GreaseValue` | golang/extensions.go:222-225 | 0x0a0a, 0x1a1a up to 0xfafa are GREASE |
| `ClientHello.OnlyGreaseValues` | golang/extensions.go:222-225 | and no other value is |
| `Ja3Preservation.CompilePreservesFingerprint` | golang/utils.go:183-347 | apart from the version the hello reads back as the JA3 iff its groups and points have their extensions and TLS 1.3 drops or adds no group; with the version iff it does not claim 772 either |
| `Ja3Preservation.EmptyGroupsNotPreserved` | golang/utils.go:243-252 | a TLS 1.3 JA3 without groups gets two for agents other than Chrome |
| `Ja3Preservation.KeySharesSound` | golang/utils.go:256-277 | a hybrid key share iff the hybrid group is listed, and never two shares for one group |
| `Ja3Preservation.KeySharesListedIff` | golang/utils.go:213-225 | every share's group is listed (section 4.2.8 of RFC 8446) exactly when extension 10 is present and lists the fixed shares' groups or leaves TLS 1.3 to add them |
| `Ja3Upgrade.FilterGroups` | golang/utils.go:372-388 | the filter loop keeps the compatible fields in order or falls back |
| `Ja3Upgrade.ConvertForTls13` | golang/utils.go:361-391 | the conversion step by step equals its specification |
| `Ja3Upgrade.UpgradedTokens` | golang/utils.go:361-391 | only the version and the groups change |
| `Ja3Upgrade.UpgradeIdempotent` | golang/utils.go:361-391 | upgrading twice is upgrading once, for every string |
| `Ja3Upgrade.UpgradedGroupsPassThrough` | golang/utils.go:227-252 | the upgraded groups are a non-empty order-preserving selection or the fallback pair, and the compiler's own filter and fallback never act on them |
| `Ja3Upgrade.SpecOkIff` | golang/utils.go:183-347 | which strings the JA3 compiler accepts, field by field |
| `Ja3Upgrade.UpgradeKeepsAccepting` | golang/utils.go:350-354 | upgrading never turns an accepted JA3 into a rejected one |
| `Ja3Dispatch.UpgradeOfPrint` | golang/utils.go:361-391 | upgrading a printed fingerprint prints the fingerprint with version 772 and the upgraded groups |
| `Ja3Dispatch.UpgradePreservesFingerprint` | golang/utils.go:350-354 | the upgraded hello of a TLS 1.2 JA3 reads back as that JA3 iff its groups are TLS 1.3 groups, at least one, and groups and points have their extensions; whatever the agent |
| `Ja3Dispatch.DispatchPreservesFingerprint` | golang/roundtripper.go:325-341 | on the route a dial takes, upgrade or not, the hello of every well-formed JA3 reads back as that JA3 iff it does not claim 772 and survives the upgrade if there is one |
| `Ja3Content.DispatchOffers` | golang/roundtripper.go:325-341 | the dialled hello offers exactly the claimed version and the one below, or TLS 1.3 and 1.2 after an upgrade; TLS 1.3 iff the JA3 claims it or was upgraded; and HTTP/1.1 alone iff that is forced |
| `Http2Fingerprint.ReadSettings` | golang/http2.go:59-80 | the settings loop, and its running sizes are the last values of their settings |
| `Http2Fingerprint.ReadFrames` | golang/http2.go:88-117 | the priority loop, empty parts skipped, weights shifted |
| `Http2Fingerprint.NewFingerprint` | golang/http2.go:42-132 | the parser step by step equals its specification, error returns included |
| `Http2Fingerprint.Format` | golang/http2.go:135-160 | the printer's loops equal the specification of the printed form |
| `Http2Fingerprint.ParseOfPrint` | golang/http2.go:42-160 | parsing what was printed gives the same value, derived sizes included |
| `Http2Fingerprint.ParsedIsPrintable` | golang/http2.go:42-132 | whatever the parser accepts can be printed |
| `Http2Fingerprint.RoundTripIff` | golang/http2.go:42-160 | a value survives printing and parsing iff it has settings, a 32-bit flow, separator-free tokens and consistent sizes |
| `Http2Fingerprint.Normalises` | golang/http2.go:42-160 | for every accepted string, parsing, printing and parsing again is parsing |
| `Http2Fingerprint.ParseOfVariant` | golang/http2.go:51-91 | the other accepted spellings give the same value: settings separated by semicolons, and an empty priority part |
| `Http2Fingerprint.ScanTolerates` | golang/http2.go:67-86 | blanks before a number and text behind it are allowed, numbers of 2^32 and above are not |
| `Http2Fingerprint.SettingOfNumbers` | golang/http2.go:62-70 | a setting id keeps its low 16 bits; a setting needs its colon |
| `Http2Fingerprint.DerivedSizes` | golang/http2.go:72-79 | the derived sizes are the values of the last settings with ids 1, 4 and 6 |
| `Http2Fingerprint.WeightShift` | golang/http2.go:98-116 | exactly the display weights 1 to 256 survive; stream, dependency and the exclusive flag as zero or not are kept |
| `Batcher.RequestsConserved` | cycletls/_batcher.py:102-239 | in every interleaving each request is flushed, in hand or queued, exactly once; calls go out in submission order, never empty, within max(1, batch_size) except the final drain |
| `Batcher.SettlesOnce` | cycletls/_batcher.py:213-239 | over every run a done future never changes |
| `Batcher.ShutdownResolvesEarly` | cycletls/_batcher.py:141-211 | once the worker has exited, every request queued before the shutdown event is resolved, wherever sentinels landed, and what is still queued came later |
| `Batcher.SubmittedBeforeShutdownResolved` | cycletls/_batcher.py:141-211 | over the actions: once the worker has exited, every request submitted before the first shutdown signal is resolved, and what is still queued was submitted after it |
| `Batcher.WorkerNeverStuck` | cycletls/_batcher.py:155-239 | in every invariant state the worker can move unless it has exited or crashed |
| `Batcher.ShutdownTerminates` | cycletls/_batcher.py:155-211 | after the event the number of worker steps in any run is bounded by the work at hand and what is queued meanwhile |
| `Batcher.CrashIff` | cycletls/_batcher.py:222-239 | the worker crashes exactly when the future it found pending has been cancelled since |
| `Batcher.NoCancelNoCrash` | cycletls/_batcher.py:155-239 | without cancellations it never crashes |
| `Batcher.CancelRace` | cycletls/_batcher.py:237-239 | from every such state the race exists, and the rest of the batch stays unresolved |
| `Batcher.CancelRaceReachable` | cycletls/_batcher.py:155-239 | such a state is reached from the start |
| `Batcher.GoneWorkerAnswersNothing` | cycletls/_batcher.py:155-165 | after the worker is gone no future is ever answered, only cancelled |
| `Batcher.HistoryIsActions` | cycletls/_batcher.py:102-139 | requests carry the payloads submitted, in order, and calls the outcomes of their actions |
| `Batcher.AnswersExact` | cycletls/_batcher.py:218-239 | for every finished call and position a future not cancelled holds its own reply when the counts agree, the count error when they do not, the exception when the call raised |
| `Batcher.AnswersAlign` | cycletls/_batcher.py:213-239 | for every finished call whose outcome is that of a batch call without a fault each future has the answer to its own payload; a call that raised, or gave no replies, gives all of them that one error; none is pending or crossed |
| `Batcher.DrainRemaining` | cycletls/_batcher.py:201-211 | while others go on putting, the drain loop takes every request that was or arrived in the queue before the read that found it empty, in order, and skips sentinels |
| `Batcher.CollectBatch` | cycletls/_batcher.py:167-199 | while others go on putting, the collecting loop takes an initial run of what was or arrived in the queue, within the limit, and loses nothing |
| `Batcher.Distribute` | cycletls/_batcher.py:213-239 | while callers cancel at every point in between, the loop crashes exactly at the first request cancelled between its test and its write; every request before it holds exactly what the outcome gives its position, or was done or cancelled in time, and all other futures are only cancelled |
| `BatchFfi.FanOut` | golang/ffi.go:1008-1031 | for every completion order the response slice holds at index i the answer to request i: its id, or one made of its position, and the body or error of its own fetch |
| `BatchFfi.SendBatch` | cycletls/_ffi.py:562-598 | the whole call raises, returns an empty list on an error payload, or returns every answer in its place |
| `AsyncHandles.RunTells` | golang/ffi.go:895-939 | over every run the store is what the actions say: handle h belongs to the h-th request, and its reply has the body its own worker finished with and its own request's id, or the default one |
| `AsyncHandles.AtMostOnceOwnReply` | golang/ffi.go:255-334 | in both variants and with any number of pollers, a poll yields only the reply that its own handle's worker made, at most once, and the handle is dead afterwards |
| `AsyncHandles.ChannelNeverPanics` | golang/ffi.go:304-334 | the channel variant never deletes a handle twice, however many pollers share it |
| `AsyncHandles.FlagNeverPanicsAlone` | golang/ffi.go:944-977 | the flag variant never does with one poller per handle |
| `AsyncHandles.FlagPanicsShared` | golang/ffi.go:958-972 | from every state in which two polls have found an answered live handle, a run of them ends in a double deletion |
| `AsyncHandles.FlagPanicReachable` | golang/ffi.go:944-977 | such a run exists from the start |
| `AsyncHandles.LoadDoomsIff` | golang/ffi.go:952-972 | in every state of the disciplined protocol a new poll makes a panic possible iff it finds the entry of a handle another poll is at, answered or not |
| `AsyncHandles.EveryPoll` | golang/ffi.go:944-977 | over all interleavings (one poller per handle with the flag, any number with the channel) every step of every poll is decided: nothing iff there is no such request, the reply is not stored yet, or it was or is being handed out; else the own reply, once; then entry and handle are gone |
| `AsyncHandles.EveryChannelPoll` | golang/ffi.go:304-334 | for the channel variant this holds in every run at all |
| `AsyncHandles.ObtainedIsReturned` | golang/ffi.go:966-976 | a poll that has obtained the reply returns exactly that reply, once, whatever others do before and between its last steps |
| `AsyncHandles.PollYields` | golang/ffi.go:944-977 | progress: from every reachable state a poll of a handle nobody else polls can run to its end, and yields the reply iff it is stored and not handed out yet |
| `AsyncHandles.PollUntilReady` | cycletls/_ffi.py:412-447 | the polling loop returns the first reply, times out only after an empty check past the deadline, and otherwise goes on |
| `WebSocket.FramesInOrder` | golang/index.go:1196-1361 | in every interleaving response and open come first, end at most once and last; a refused connection yields one error |
| `WebSocket.FinishedIsComplete` | golang/index.go:1339-1361 | when main is done both goroutines have stopped, the close channel was closed once, the state is CLOSED, and an open output carries all messages received and the end frame |
| `WebSocket.ClosedAtMostOnce` | golang/index.go:1339-1352 | the close channel is closed exactly once, between the select and the wait |
| `WebSocket.ReadyStateMonotone` | golang/index.go:1298-1301 | over every run ReadyState never decreases |
| `WebSocket.ReadyStateTold` | golang/index.go:1223-1357 | in every run ReadyState is OPEN from registration, CLOSING once a close command has been marked, and CLOSED at the end |
| `WebSocket.CommandsInOrder` | golang/index.go:1280-1337 | commands are executed in the order accepted, none lost or repeated, none after a close |
| `WebSocket.FramesAccountedFor` | golang/index.go:1259-1337 | over every run, told by its actions: a finished dispatch on an open output carries each message, close and error frame exactly as often as a message, refusal, read error, peer close, failed send or executed close called for it, with its own content |
| `WebSocket.PostAccepted` | golang/index.go:1626-1632 | a posted command is accepted behind the others while there is room in the channel, and dropped otherwise |
| `WebSocket.OnlyTheEndsBlock` | golang/index.go:1196-1361 | unless it is done, its reader waits for the peer or its output waits for the client, one of the three goroutines can move |
| `FrameCodec.TagWords` | golang/index.go:809-995 | the tags on the wire are the words response, data, error and end |
| `FrameCodec.WriteHeader` | golang/index.go:869-886 | the loop writes one header's name, value count and values |
| `FrameCodec.WriteResponse` | golang/index.go:845-887 | the buffer built step by step is the response frame's encoding |
| `FrameCodec.DecodeOfEncode` | golang/index.go:809-995 | every frame whose lengths, counts and status fit decodes back to exactly itself |
| `FrameCodec.RoundTripIff` | golang/index.go:809-995 | and only those do |
| `FrameCodec.EncodeInjective` | golang/index.go:809-995 | distinct fitting frames never share an encoding |
| `FrameCodec.LongIdCollides` | golang/index.go:811-828 | beyond 16 bits two frames do: an end frame with an over-long id reads as a data frame |
| `ResponseStream.Channel.Write` | golang/index.go:48-65 | a write appends its frame, or fails and changes nothing once the channel is closed |
| `ResponseStream.Channel.StreamBody` | golang/index.go:894-1020 | the body loop writes the intended frames, cut off where the channel stopped taking them |
| `ResponseStream.Channel.Dispatch` | golang/index.go:786-1020 | the same for the whole dispatch |
| `ResponseStream.StreamGrammar` | golang/index.go:786-1020 | one error, or response, non-empty data frames within the buffer size, at most one error, end |
| `ResponseStream.FramesOfReads` | golang/index.go:900-1020 | one data frame per read that brought bytes, in order, then the read error of the turn that ended the loop, if it is one, with its status and message, and the end |
| `ResponseStream.FirstFrame` | golang/index.go:806-892 | the first frame is the response as it arrived, or the error with its summary, an arrow and its detail |
| `ResponseStream.BodyConserved` | golang/index.go:900-1003 | every byte read is sent once and in order or dropped at the very end |
| `ResponseStream.BodyCompleteIff` | golang/index.go:900-1003 | the payloads are exactly the bytes read iff the turn that ends the loop is end of file or brings no bytes |
| `ResponseStream.LastBytesLost` | golang/index.go:915-946 | a family of inputs whose last bytes are lost |
| `ResponseStream.EofDropsNothing` | golang/index.go:948-974 | end of file drops nothing, bytes returned with it included |
| `ResponseStream.StreamFits` | golang/index.go:786-1020 | every frame of a dispatch, response and errors included, decodes back to itself when its texts fit |
| `ConnectionHandoff.RoundTripper.RetryDial` | golang/roundtripper.go:435-644 | both retry functions equal one specification |
| `ConnectionHandoff.RoundTripper.DialTls` | golang/roundtripper.go:270-432 | the dial with all its error, retry and redial paths equals its specification |
| `ConnectionHandoff.RoundTripper.CloseIdleConnections` | golang/roundtripper.go:678-710 | the sweep keeps at most the named address and closes every other waiting connection |
| `ConnectionHandoff.SweepTransports` | golang/roundtripper.go:690-698 | the first loop, addresses in any order |
| `ConnectionHandoff.SweepSlots` | golang/roundtripper.go:700-709 | the second loop, addresses in any order |
| `ConnectionHandoff.HandedOffOnce` | golang/roundtripper.go:222-432 | over every run each connection meets exactly one fate: waiting, returned once, closed or dropped; no two addresses share one; a waiting one has a cached transport |
| `ConnectionHandoff.RoundTripper.GetTransport` | golang/roundtripper.go:222-268 | on success a transport is cached and, after a first https dial, a new connection waits for it; the ignored result is never a connection; on failure both caches are unchanged |
| `ConnectionHandoff.FirstDial` | golang/roundtripper.go:253-265 | a dial of an address without a transport parks a connection or fails, and returns none |
| `ConnectionHandoff.ParkedUntilDialled` | golang/roundtripper.go:274-283 | over every run that neither dials nor sweeps the address, its parked connection stays and is the one its next dial returns |
| `ConnectionHandoff.WaitingUntilTaken` | golang/roundtripper.go:274-283 | a waiting connection stays until its own address is dialled, which returns it, or a sweep closes it |
| `ConnectionHandoff.DialFillsIff` | golang/roundtripper.go:376-432 | a dial reports a negotiated protocol iff it filled an empty slot, and then with a new connection and the transport of the protocol that was negotiated, for an address that had none |
| `ConnectionHandoff.HandOff` | golang/roundtripper.go:270-432 | after such a dial, over every run that spares the address, its next dial returns that very connection without dialling |
| `LostConnections.DroppedIff` | golang/roundtripper.go:302-393 | one call of the dial leaves a connection unclosed exactly when the slot is empty and the first attempt is rejected after dialling, or negotiates HTTP/2 for a new transport with a bad fingerprint, or is retried and the second does either |
| `LostConnections.RejectedDrops` | golang/roundtripper.go:338-353 | a JA3 or preset that is rejected loses the connection dialled for it |
| `LostConnections.MoveDropsIff` | golang/roundtripper.go:120-353 | over every run, in which a bad HTTP/2 fingerprint stops a request before any dial, a move leaves a connection unclosed iff it dials with an empty slot and an attempt is rejected between dialling and use |
| `LostConnections.WorldHandsOffOnce` | golang/roundtripper.go:222-432 | over every interleaving of requests, redials and sweeps each connection meets exactly one fate, and one that `getTransport` forgot was returned by a dial, to it alone |
| `LostConnections.DiscardIff` | golang/roundtripper.go:247-265 | the dial of `getTransport` loses a connection iff one was parked for the address since its check, or a transport was cached and the dial succeeds |
| `LostConnections.UndisturbedKeepsAll` | golang/roundtripper.go:247-265 | over every run that leaves the address alone between check and dial, nothing is lost |
| `LostConnections.DiscardReachable` | golang/roundtripper.go:247-265 | a run from the start that loses one: a redial through a swept transport |
| `LostConnections.CachedIff` | golang/roundtripper.go:222-710 | over every run a transport is cached at the end iff it was there or some move cached it, and no sweep hit it since |
| `LostConnections.UsePanicsIff` | golang/roundtripper.go:200-219 | a request whose transport was cached, and that reads the cache again later, finds none and panics iff a sweep for another address came in between and nobody cached it again |
| `LostConnections.ToldOnlyIfCached` | golang/roundtripper.go:200-205 | a request goes on to that second read only when its transport was cached |
| `LostConnections.PanicReachable` | golang/roundtripper.go:200-219 | a run from the start that panics |
| `ClientPool.EvictedByLastUse` | golang/client.go:360-373 | a client obtained or found at some time survives an eviction exactly when no more than the maximal age has passed since, and other keys are judged by their own last use |
| `ClientPool.ShardedPool.Lookup` | golang/client.go:290-302 | the read path refines a lookup in one flat map, time of last use included |
| `ClientPool.ShardedPool.LookupOrCreate` | golang/client.go:304-328 | the write path refines find-or-create in one flat map, failed creation included |
| `ClientPool.ShardedPool.EvictShard` | golang/client.go:366-370 | one shard's loop removes exactly the stale entries |
| `ClientPool.ShardedPool.Cleanup` | golang/client.go:360-373 | eviction refines eviction from one flat map |
| `ClientPool.ShardedPool.Clear` | golang/client.go:376-393 | clearing closes the idle connections of exactly the pooled clients and empties the flat map |
| `ClientPool.OneClientPerKey` | golang/client.go:275-329 | in every interleaving at most one client is stored per key between two removals of it, and no two keys share one |
| `ClientPool.CallersShareClient` | golang/client.go:293-328 | until a key is removed, every caller that finishes with it gets the client stored there |
| `CookieJar.RecordingJar.SetCookies` | golang/cookiejar.go:41-58 | the recording loop keeps the jar equal to the replay of all events so far |
| `CookieJar.RecordingJar.Cookies` | golang/cookiejar.go:62-72 | the recorded cookies in key order |
| `CookieJar.MergedResponseCookies` | golang/cookiejar.go:79-106 | the merged list has the names in report order, each with the response's last value or else the current one, for a missing jar or response too |
| `CookieJar.Merge` | golang/cookiejar.go:80-105 | each name once where it occurs first, with its last cookie |
| `CookieJar.SeenIsCurrent` | golang/cookiejar.go:43-55 | the record holds exactly the latest settings not later deleted |
| `CookieJar.KeysAreSettings` | golang/cookiejar.go:47-54 | the key list may repeat names, but its first occurrences are those of all settings |
| `CookieJar.MergeIsReport` | golang/cookiejar.go:74-106 | what the merge produces is the report of the replay |
| `CookieJar.ReportNames` | golang/cookiejar.go:74-106 | the report names exactly the current cookies and the response's own, each once |
| `CookieJar.ReportIsCurrentIff` | golang/cookiejar.go:74-106 | for each name the report is what a browser would hold after the whole chain iff the final response does not end up deleting it |
| `CookieJar.DeletionReported` | golang/cookiejar.go:96-100 | a deletion in the final response is reported as a cookie |
| `CookieJar.ResetKeepsPlace` | golang/cookiejar.go:47-54 | deleting and setting again repeats a key but keeps its place |
| `Sse.FieldLine` | golang/sse.go:157-177 | how a line reads: a name alone, a value after the colon with one space dropped, and no field for empty lines and comments |
| `Sse.ParseInt64Of` | golang/sse.go:191-195 | retry values are signed 64-bit decimals and nothing else |
| `Sse.ReconnectionOf` | golang/sse.go:193-195 | a retry in range sets the reconnection time in milliseconds |
| `Sse.EventOfLines` | golang/sse.go:135-220 | from the lines to the event: retry, id, an id with a NUL, type and two data lines give exactly that event, and the rest is left |
| `Sse.SseResponse.NextEvent` | golang/sse.go:135-220 | one call consumes the lines up to the first empty line behind data and returns the event they say, an unterminated one at the end, or the scanner's error; last id and reconnection time follow |
| `Sse.Process` | golang/sse.go:179-197 | the switch on the field name, unusable ids and retries ignored |
| `Sse.SseResponse.Drain` | golang/sse.go:135-220 | calling until there is no event terminates with all events of the stream and leaves the last non-empty id |
| `Sse.BufferIsJoin` | golang/sse.go:184-186 | the trimmed buffer is the data values joined by newlines |
| `Sse.DataConserved` | golang/sse.go:135-220 | each data line's value is in exactly one event, in stream order; with a scanner error exactly those of terminated events |
| `Sse.FirstEventIsStandard` | golang/sse.go:144-155 | each call ends its event exactly where section 9.2.6 of the HTML Living Standard dispatches one, with the same data |
| `Sse.TypeAgreesIff` | golang/sse.go:144-155 | its type agrees with that standard iff the event's own block names one or the earlier blocks without data left none |
| `Sse.TypeCarriedOver` | golang/sse.go:144-155 | a family of streams on which it does not |
| `Sse.DispatchEndsIff` | golang/index.go:1116-1174 | without a cancellation the dispatch loop ends iff the scanner fails or the channel takes fewer frames than there are events |

## Left out

- TLS handshakes, sockets, proxies, QUIC and HTTP/3: foreign libraries; a dial is a choice among its outcomes.
- What utls does with a compiled specification, including its omission of an empty server name, and the contents of extensions that neither compiler inspects.
- The hashed JA4 and JA4H forms, `QUICStringToSpec` and the UQuic tables: formatting and fixed tables.
- `HTTP2Fingerprint.Apply`, `Navigator` and `PseudoHeaderOrder`: field copies and a four-letter table; the header priority is always absent.
- Unicode: strings are byte strings, lower-casing is ASCII, and the blanks that `Sscanf` skips are the ASCII ones.
- Real time, sleep intervals and the values of CRC32 and FNV: choices of an action, or an abstract function.
- Message serialisation (msgpack, base64, JSON), cgo memory and body decompression: nothing of the repository's own.
- The Python API surface (`cycletls/api.py`, sessions, configuration, plugins): parameter plumbing.
- Unsynchronised reads of the transport cache in `RoundTrip` and `getTransport`: each access is one atomic step, so a data race is not expressible.
- Go's random map iteration: the order of a response's headers is a parameter of the frame.
- The inner RFC 6265 jar that decides which cookies later hops send.
- JA3 versions outside 770 to 772: `createTlsVersion`'s error is ignored by the source, and the preservation theorems say nothing about the resulting hello.
- WebSocket and polling liveness: it depends on the peer.
- `ConnectionHandoff.RoundTripper.GetTransport`: covers the call without interference between its own check and its dial; the interleaved form is `LostConnections`'s state machine, with `DiscardIff`.
