# Verified model of the remote-desktop client's stateful core

This project models the parts of the client that carry real state, arithmetic or parsing, and proves what they
guarantee over every input, every run or every reachable state. Each file is one component. Objects that the program
updates in place are classes whose methods are proved against functions on values; the theorems are lemmas about those
functions and about runs of them.

| file | component |
|---|---|
| `audio.dfy`, `audio_runs.dfy`, `audio_limits.dfy` | the three-second playback ring, its level histogram, the rule that drops old samples, what holds over whole runs, and where two promises end |
| `base64.dfy`, `strings.dfy`, `custom_server.dfy`, `name_round_trip.dfy`, `name_limits.dfy`, `name_reading.dfy`, `host_form.dfy`, `codec_witness.dfy` | a server configuration carried in the name of the executable: printer, parser, round trips, which names are not read back, signed names and the order of trying, and codecs that meet the laws |
| `clipboard_codec.dfy`, `clipboard_sync.dfy`, `clipboard_runs.dfy`, `clipboard_latest.dfy`, `utf8.dfy` | the clipboard wire form and what it takes for a text, one end of the synchronisation, the two ends as a system of interleaved steps, and which of several copies arrives |
| `keyboard.dfy` | the modifier flags, the keys still to be released, and the keyboard of the remote side |
| `login.dfy` | where the password comes from, what is answered, what is kept |
| `lan.dfy` | merging the answers of a LAN discovery round into the stored peers |
| `sessions.dfy`, `frames.dfy` | the registry of UI sessions and the frame slots between decoder and UI |
| `punch.dfy` | the back-off of UDP hole punching, and the colour of a name |
| `wrappers.dfy` | `Option`, the byte type and two facts that several components use |

What the environment decides is an argument or an event: clocks, the order a hash table is walked in, which thread runs
next, whether the clipboard could be read. JSON, the signature check, SHA-256, the compressor, the keyboard lookup tables
and the address books are parameters, with their laws as named predicates (`Lawful`, `Lossless`, `Sound`, `Injective`).

## Where the code does not do what is said or expected

Each of these is kept as the code has it. A lemma shows the failing case, and another one says exactly when the code does
what is expected, in terms of something that can be looked at beforehand.

- A comment promises that no samples are dropped below 600 ms of buffered sound (`src/client.rs:1265`). The rule looks at
  the histogram of levels at appends, not at what is buffered when it drops: `AudioLimits.DropBelow600ms`. After any run
  the promise is kept, however much is played in between, exactly under the condition of `AudioLimits.PromiseKeptIff`;
  with 600 ms buffered that is a peak below 600 ms or a level below 200 ms, so that nothing is dropped at all, or else a
  peak of 800 ms or more and no level below 300 ms (`AudioLimits.PromiseKeptInWindow`).
- A resize does not clear the histogram (`src/client.rs:1214-1222`). In seconds the drop bound holds across resizes
  (`AudioRuns.DropBound`); in samples it holds for all runs exactly when the two rates fit (`AudioLimits.SampleBoundIff`),
  which they do when the rate has not grown, and do not when it has grown by five samples a second or more
  (`AudioLimits.WhichRatesFit`). In between the condition `Fits` decides by the rounding of the given rates.
- The separators of the file name can occur in the payload of a configuration that is not ASCII:
  `NameLimits.NonAsciiNameIsCut`. A name in which they do not occur is always read back (`NameRoundTrip.UncutNameRoundTrip`).
  A decoder that accepts only what the encoder writes reads no other name, so behind each of the four separators the
  condition `Readable` is exact (`NameLimits.ReadBackIff`), and it describes the names that every lawful decoder reads
  (`NameLimits.EveryDecoderReadsBackIff`). It differs between the separators: behind `-licensed-` a name may begin with
  `licensed-`, behind the others it may not, since the dash in front of it is still there for the next replace.
- The prefix that the command-line tool prints (`src/naming.rs:21`) is not one that the parser removes. No such file name is
  ever read, for any name without separators and so for any ASCII configuration (`NameLimits.PrintedPrefixIsNotRead`), and
  no configuration at all comes back from its own (`NameLimits.PrintedPrefixIsNeverRead`).
- A special clipboard entry that does not get shorter is sent with its format name in place of its data
  (`src/clipboard.rs:610`), the image size goes through a signed 32-bit field, and a compressor that reports its failure
  as an empty result (`libs/hbb_common/src/compress.rs:12-30`) loses the text
  (`ClipboardCodec.FailedCompressionLosesText`). `ClipboardCodec.MultiRoundTrip` has the exact condition for all three.
- A shared password is stored as the user's own when a later hash message brings a new salt, or a side switch:
  `Login.SharedPasswordIsKept` for a handler built anew, `Login.BuiltInPasswordIsKept` for one that lives on over a reconnect,
  where nothing at all had been stored. `Login.HandlerKeepsSharedIff` says exactly when, for any state of the handler.
- Addresses from an earlier round survive when one id answers under two user names: `Lan.StaleAddressSurvives`, and exactly
  then, `Lan.NothingStaleIff`.
- A session id that is handed to a second peer makes the prediction of its removal depend on a hash table's order:
  `Sessions.SharedIdBreaksPrediction`; `Sessions.PredictionRightIff` gives the exact condition.
- A removal gives up the lock between taking out the last session and dropping its peer (`src/flutter.rs:2098-2119`). A
  session that is added in between is lost with the peer: `Sessions.SessionIsLost`, and exactly these are,
  `Sessions.LostInGapIff`.
- Of several copies it is not always the newest one that the other side ends with, since each message has a thread of its
  own (`src/clipboard.rs:235-239`): `ClipboardLatest.OlderCopyCanWin`. What it ends with is in
  `ClipboardLatest.LatestDeliveryWins`; it is the newest copy when nobody copies while a message is in flight
  (`ClipboardLatest.NewestWins`).
- The time that a hole-punching call may take is checked against an earlier clock reading than the one a packet is measured
  by (`src/common.rs:2203-2218`): a pause between the two lets one packet more through, and no second one
  (`Punch.AnyPauseHoldsIff`).

## Model

| member | source | states |
|---|---|---|
| AudioRuns.DropBound | src/client.rs:1224-1284 | after any run, with resizes too, a drop is at most two thirds of every level counted since the histogram was last cleared (up to rounding to an even number): in seconds in general, in samples for levels counted at the current rate or a higher one |
| AudioRuns.HistogramCountsWindow | src/client.rs:1229-1233 | in every run the thirty counters are exactly the tally of the levels recorded since the last clearing |
| AudioRuns.LevelAboveEmptyBuckets | src/client.rs:1247-1253 | no level of the window lies below the leading empty buckets |
| AudioRuns.SkipBound | src/client.rs:1262-1279 | the integer arithmetic of the skip: at most one fifteenth of a second's samples per leading empty bucket, plus one |
| AudioRuns.SkipIs | src/client.rs:1262-1280 | the skip, exactly: the one even number within a sample of the share that the water mark has of the capacity |
| AudioRuns.SkipTwoSided | src/client.rs:1262-1280 | the skip bounded from both sides by the rate, the peak and the leading empty buckets |
| AudioRuns.DropSize | src/client.rs:1224-1284 | after any run a statistics step drops nothing while the peak is below bucket 6 or no more than three times the skip is buffered, and otherwise the whole skip, which is bounded from both sides |
| AudioRuns.SkipExample | src/client.rs:1262-1283 | 38400 samples for six empty buckets, peak bucket 20 and 200000 buffered samples at 96 kHz |
| AudioRuns.WindowEndsIff | src/client.rs:1235-1245 | a window ends at the first step twelve seconds after its start, which is the first step at all or the end of the last window |
| AudioRuns.NextWindow | src/client.rs:1235-1245 | the next window starts where one ends |
| AudioRuns.DropNeeds | src/client.rs:1264-1283 | a drop is even, takes less than a third of what is buffered, and needs one level of 600 ms and none below 200 ms in the window |
| AudioLimits.DropBelow600ms | src/client.rs:1264-1283 | a run that drops samples with 500 ms buffered, against the comment |
| AudioLimits.Keeps600msIff | src/client.rs:1264-1283 | for every rate and pair of buckets: nothing can be dropped from less than 600 ms exactly when the skip is nothing or at least 200 ms, up to a third of a sample |
| AudioLimits.Keeps600msInBuckets | src/client.rs:1264-1283 | at rates divisible by five the two buckets decide: no drop at all, or a peak of 800 ms and no level below 300 ms |
| AudioLimits.PromiseKeptIff | src/client.rs:1264-1283 | after any run: whatever is played before the drop, the promise holds exactly when the skip is nothing, too much for what is buffered, or large enough |
| AudioLimits.PromiseKeptInWindow | src/client.rs:1224-1284 | the same in terms of the levels of the window, with 600 ms buffered |
| AudioLimits.EmptyBucketsIff | src/client.rs:1247-1253 | the first b buckets are empty exactly when no level of the window lies below them |
| AudioLimits.SampleBoundIff | src/client.rs:1214-1284 | for levels counted at one rate and drops at another, the bound in samples holds in all runs exactly when the two rates fit |
| AudioLimits.WhichRatesFit | src/client.rs:1214-1284 | rates that have not grown fit; rates that have grown by five samples a second or more never do |
| AudioLimits.BreakingRun | src/client.rs:1214-1284 | for any two buckets and rates, a run with a resize in the window that drops the whole skip of these buckets |
| AudioRuns.FirstInFirstOut | src/client.rs:1289-1311 | as long as the rate stays, in spite of resizes to the rate in force, whatever the order of appends, drops and callbacks, the buffer is the produced stream less exactly the samples played or dropped, all taken from its front |
| AudioRuns.ResizeEmpties | src/client.rs:1214-1222 | a resize to the rate in force changes nothing; any other empties the buffer and keeps three seconds of the new rate and the histogram |
| AudioRuns.StereoAlignment | src/client.rs:1262-1311 | at a two-channel rate with even chunks and callbacks, an even number of samples has left, so the oldest one is always a left one |
| AudioPlayback.PeakIsUnique | src/client.rs:1255-1261 | the least index of a maximal count among buckets 1 to 29 (0 when they are empty) is unique, so the destructive pass returns it |
| AudioPlayback.BucketBounds | src/client.rs:1229-1232 | bucket b of a level spans b to b + 1 tenths of a second, the last bucket everything above |
| AudioPlayback.AudioBuffer.constructor | src/client.rs:1200-1211 | the buffer starts empty, three seconds long, with an empty histogram |
| AudioPlayback.AudioBuffer.Resize | src/client.rs:1214-1222 | capacity stays three seconds of the rate; samples go exactly when the capacity changes; the histogram stays |
| AudioPlayback.AudioBuffer.CountLevel | src/client.rs:1224-1245 | one counter grows by one, and the twelve-second window is over exactly when the shared timer says so |
| AudioPlayback.AudioBuffer.DrainHistogram | src/client.rs:1247-1269 | the pass that clears while it reads still finds the leading empty buckets and the peak of the histogram as it was, and leaves all counters zero |
| AudioPlayback.AudioBuffer.DropOld | src/client.rs:1262-1284 | removes exactly the computed number of samples from the front |
| AudioPlayback.AudioBuffer.TryShrink | src/client.rs:1224-1284 | the whole statistics step on the abstract state |
| AudioPlayback.Ring.PushSliceOverwrite | src/client.rs:1293-1301 | keeps the newest elements of contents and slice |
| AudioPlayback.Ring.Append | src/client.rs:1289-1303 | keeps the newest samples, for oversize chunks too, and returns the exact occupancy |
| AudioPlayback.AudioBuffer.AppendPcm2 | src/client.rs:1289-1303 | the same on the buffer; rate and histogram stay |
| AudioPlayback.AudioBuffer.AppendPcm | src/client.rs:1308-1311 | append, then a statistics step at the level after the append, and the timer |
| AudioPlayback.Ring.FillOutput | src/client.rs:1484-1516 | plays the oldest samples in order, fills up with silence, keeps the rest |
| NameRoundTrip.NameIsRead | src/custom_server.rs:39-108 | whatever decodes to a configuration is read from its file name, when the separators do not cut it: any of four separators, any number of copy marks, an optional comment, the extension none, once or twice in any letter case |
| NameRoundTrip.UncutNameRoundTrip | src/custom_server.rs:39-108 | so every configuration whose printed name contains neither `--` nor `-licensed-` is read back exactly |
| NameReading.SignedNameIsRead | src/custom_server.rs:32-36 | so is every signed configuration: 64 bytes that the check accepts, and then the text |
| NameReading.DecodedNameIsRead | src/custom_server.rs:28-31 | and every plain one, in any JSON spelling, whatever the signature check would say |
| NameReading.TrimAround | src/custom_server.rs:95-95 | white space around a piece is taken off, and nothing else |
| NameReading.FromPiecesIff | src/custom_server.rs:93-106 | of the pieces the first one that gives a configuration is taken |
| NameReading.FirstOfIff | src/custom_server.rs:97-104 | of the parts of a piece the first one that decodes is taken |
| NameRoundTrip.PartsAreNext | src/custom_server.rs:95-104 | the whole piece comes first, and then its parts before a parenthesis |
| NameRoundTrip.FileNameRoundTrip | src/custom_server.rs:39-108 | in particular every configuration with an ASCII encoding |
| NameRoundTrip.PrintedNameDigits | src/naming.rs:5-8 | a printed name has only base64 digits, begins with no dash and ends in `e` |
| NameRoundTrip.PrintedNameIsSpaced | src/naming.rs:5-8 | in the name of an ASCII configuration the dashes are a multiple of four apart |
| NameRoundTrip.AsciiNameIsUncut | src/custom_server.rs:89-93 | so the separators never occur in it |
| NameRoundTrip.NoLicensedInBody | src/custom_server.rs:89-92 | `-licensed-` does not occur behind the separator, not even with a dash of the separator |
| NameRoundTrip.Normalised | src/custom_server.rs:89-92 | the three replaces turn every recognised separator into `--` and change nothing else |
| NameRoundTrip.SplitBody | src/custom_server.rs:93-93 | the split on `--` never cuts the name or its copy marks |
| NameRoundTrip.PieceDecodes | src/custom_server.rs:94-104 | a name with copy marks does not decode as it stands but does up to its first parenthesis |
| NameRoundTrip.ProgramNameIsNoConfig | src/custom_server.rs:116-117 | the program name alone is not a configuration |
| NameRoundTrip.ProgramPieceIsNoConfig | src/custom_server.rs:21-37 | nor is any text that begins with it, signed or not: reversed and decoded it ends in no byte a JSON text can end in |
| NameLimits.OnePieceIff | src/custom_server.rs:89-93 | the parser leaves a name in one piece exactly when it has no `--` and no `-licensed-`, a dash in front counted |
| NameLimits.NoPieceIsRead | src/custom_server.rs:93-104 | behind a beginning of the program's name, no piece of a text that is too short for a name gives its configuration |
| NameLimits.ReadBackIff | src/custom_server.rs:39-108 | with a decoder that accepts only what the encoder writes, a file name is read back exactly when its name is not cut, behind each of the four separators |
| NameLimits.EveryDecoderReadsBackIff | src/custom_server.rs:39-108 | every lawful decoder for the encoder reads it back exactly when its name is not cut, behind each of the four separators |
| NameLimits.LicensedNameIsRead | src/custom_server.rs:89-92 | behind `-licensed-` a name may begin with `licensed-` |
| NameLimits.NormalisedName | src/custom_server.rs:89-92 | what the three replaces leave of each separator and of the name behind it |
| NameLimits.NonAsciiNameIsCut | src/custom_server.rs:89-104 | a family of non-ASCII configurations whose names are cut, and which a strict decoder does not get back behind any separator |
| NameLimits.PrintedPrefixIsNotRead | src/naming.rs:21-21 | behind the prefix of the command-line tool no uncut name is ever read as a configuration |
| NameLimits.PrintedPrefixIsNeverRead | src/naming.rs:21-21 | behind it a strict decoder gets no configuration back, whether its name is cut or not |
| NameLimits.PrintedAsciiNameIsNotRead | src/naming.rs:21-21 | in particular that of no ASCII configuration |
| HostFormRoundTrip.HostNameRoundTrip | src/custom_server.rs:59-87 | a list of tagged values is read back exactly: the host first, the others in any order, empty ones left out, tags in any letter case, closed by a comma and any number of copy marks or not closed, any extension |
| HostFormRoundTrip.HostNameExample | src/custom_server.rs:59-87 | a name with one field, a closing comma and a copy mark, read back |
| HostFormRoundTrip.FieldIsRead | src/custom_server.rs:66-80 | the last field with a tag gives its value, and an absent one is empty |
| HostFormRoundTrip.LastFieldDecides | src/custom_server.rs:66-80 | of several fields with one tag the last one counts |
| CustomServerName.GetCustomServerFromString | src/custom_server.rs:39-108 | the loops with early returns compute the parse function that the round trips are about |
| CustomServerName.ParseElements | src/custom_server.rs:63-80 | the last element with a tag gives its value |
| CodecWitness.WitnessIsLawful | src/custom_server.rs:21-37 | the laws asked of the codec can be met, with a strict decoder and ASCII texts for all configurations |
| CodecWitness.SealedNameIsRead | src/custom_server.rs:32-36 | a codec with signatures that meets the laws, whose signed names are all read |
| UrlBase64.AsciiDashes | src/custom_server.rs:28-28 | in the encoding of ASCII bytes a dash is only ever the fourth digit of a group |
| UrlBase64.DecodeEncode | src/naming.rs:6-7 | decoding inverts encoding, for all bytes |
| UrlBase64.Alphabet | src/custom_server.rs:28-28 | the 64 digits in the order of section 5 of RFC 4648 |
| UrlBase64.GroupIsNumber | src/custom_server.rs:28-28 | four digits spell the number that three bytes spell, high part first |
| UrlBase64.EncodeDecode | src/custom_server.rs:28-28 | the decoder accepts one spelling only per byte string |
| UrlBase64.OnlyDigitsDecode | src/custom_server.rs:28-28 | a string with any other character is rejected |
| UrlBase64.LastDigit | src/naming.rs:6-7 | the encoding of a text ending in a brace does not end in a dash |
| UrlBase64.NonAsciiDashes | src/naming.rs:6-7 | outside ASCII two dashes can stand next to each other |
| Strings.ReplaceShrinks | src/custom_server.rs:89-92 | a shortening replace leaves a text as it is exactly when the pattern does not occur, and otherwise shortens it by at least one pattern |
| ClipboardCodec.MultiRoundTrip | src/clipboard.rs:544-680 | for any list and any compressor, decoding the encoding gives the supported entries in order exactly when every entry can be carried: the compressor restores what it made shorter, special entries get shorter or equal their name, image sizes survive 32 bits |
| ClipboardCodec.EntryRoundTrip | src/clipboard.rs:587-680 | the same for one entry |
| ClipboardCodec.ListOnceMore | src/clipboard.rs:544-680 | with a lossless compressor what is decoded can be encoded and decoded again without any change, and exactly when to the same bytes |
| ClipboardCodec.CastRoundTrip | src/clipboard.rs:574-575 | exactly which lengths survive the signed 32-bit field |
| ClipboardCodec.WireSizes | src/clipboard.rs:544-637 | wire entry i carries supported entry i, and only special entries can take more bytes than they have |
| ClipboardCodec.WireContent | src/clipboard.rs:544-617 | the content is the shorter one of the bytes and their compressed form, with the flag that says which; the exceptions are a PNG and the name of a special entry |
| ClipboardCodec.SpecialArrives | src/clipboard.rs:603-617 | a special entry whose compressed form is shorter arrives with its data |
| ClipboardCodec.WireFields | src/clipboard.rs:564-635 | kind, name, width and height are each in their own field |
| ClipboardCodec.DroppedIff | src/clipboard.rs:640-675 | an entry is dropped on arrival exactly when its kind is unknown or its text is none; such an SVG arrives empty |
| Utf8Text.ValidIff | src/clipboard.rs:647-665 | what is taken for a text is exactly the UTF-8 encoding of some sequence of Unicode scalar values (RFC 3629) |
| ClipboardCodec.SupportedOnly | src/clipboard.rs:619-637 | the supported entries are those of the list that are neither file lists nor empty |
| ClipboardCodec.FailedCompressionLosesText | src/clipboard.rs:545-551 | a compressor that reports failure as an empty result empties the text |
| ClipboardRuns.NoPingPong | src/clipboard.rs:52-76 | without new user actions every run, in any interleaving, is shorter than a measure of its first state |
| ClipboardRuns.StepDecreases | src/clipboard.rs:208-232 | every check and every delivery uses up some of the measure: the mark makes a notification worth less than a message |
| ClipboardRuns.QuietIff | src/clipboard.rs:208-232 | the measure is used up exactly when nothing is left to do, and otherwise something can be done |
| ClipboardRuns.ContentsComeFromUsers | src/clipboard.rs:52-76 | in every run, with any compressor and any contents, every message in flight, every cache and every clipboard is of some content a user copied, after some passes through the wire form |
| ClipboardRuns.MessagesSayWhatUsersCopied | src/clipboard.rs:52-76 | with a lossless compressor one pass is all that counts: every message decodes to what the message of a user's own copy decodes to, and every clipboard is a user's own or that and a mark |
| ClipboardRuns.SecondHandMessage | src/clipboard.rs:328-357 | a delivered clipboard, read again without its mark, says the same, and exactly when in the same bytes |
| ClipboardRuns.GreetingIsLatest | src/clipboard.rs:470-486 | a new connection is sent what was found last, or the clipboard itself |
| ClipboardRuns.StepStaysOnItsWay | src/clipboard.rs:208-232 | a single copy is at every moment on its way or delivered |
| ClipboardRuns.CopyArrives | src/clipboard.rs:208-239 | when nothing fails a copy ends up on the other side as what its message says plus that side's mark; that is what was copied exactly when every entry can be carried |
| ClipboardRuns.WholeCopyArrives | src/clipboard.rs:208-239 | by values: a copy of which everything is worth sending ends up there as it is, less the kinds without a wire form, plus the mark, exactly when every entry can be carried |
| ClipboardRuns.CopyIsWithheld | src/clipboard.rs:199-206 | a copy that is marked, or whose message says nothing, leaves the other clipboard as it is, whatever fails |
| ClipboardRuns.NothingSentWhenOff | src/client.rs:1131-1135 | while the text clipboard is switched off, reading it sends nothing |
| ClipboardLatest.LatestDeliveryWins | src/clipboard.rs:208-239 | several copies on one side, nothing failing: the other side ends with what the message delivered last says, which is of one of the copies; the newest one has been delivered too |
| ClipboardLatest.NewestWins | src/clipboard.rs:208-239 | it ends with the newest copy when nobody copies while a message is in flight |
| ClipboardLatest.OlderCopyCanWin | src/clipboard.rs:235-239 | a run of two copies that ends with the older one |
| ClipboardLatest.StepIsTracked | src/clipboard.rs:208-239 | at every moment the newest copy is still to be read, on its way, or delivered, and the other clipboard holds the last delivery |
| ClipboardEnd.Clipboard.CheckClipboard | src/clipboard.rs:52-76 | what is found is encoded, cached and sent; otherwise nothing changes |
| ClipboardEnd.Clipboard.GetFormats | src/clipboard.rs:282-299 | leaving out empty slots changes neither what is kept nor the mark |
| ClipboardEnd.Clipboard.GetFormatsFilter | src/clipboard.rs:328-357 | nothing when marked and not forced; otherwise the entries worth sending, in order |
| ClipboardEnd.FoundIff | src/clipboard.rs:345-356 | an entry is found exactly when it is there and is no empty slot, no empty text and no owner's entry |
| ClipboardEnd.FoundTogether | src/clipboard.rs:345-356 | in order, and as often as it is there |
| ClipboardEnd.AllFound | src/clipboard.rs:345-356 | when every entry is worth sending all are found |
| ClipboardEnd.MarkedIff | src/clipboard.rs:338-344 | a clipboard counts as marked exactly when an owner's entry has one of its two lowest bits set, and then nothing is found |
| ClipboardEnd.FirstTextAt | src/clipboard.rs:488-500 | the single text for an old peer is the first one |
| ClipboardEnd.Clipboard.UpdateClipboard | src/clipboard.rs:199-232 | the decoded entries and this side's mark replace the clipboard; an empty decoding changes nothing |
| ClipboardEnd.Clipboard.GetCurrentClipboardMsg | src/clipboard.rs:470-500 | the cache, filled from the clipboard when empty; its first text alone for a peer without support for several formats |
| ClipboardEnd.Clipboard.OnClipboardChange | src/clipboard.rs:774-780 | every subscriber is told exactly once |
| KeyboardRuns.RemoteMirrorsTable | src/keyboard.rs:107-116 | in Map mode, after any sequence of calls, the peer holds exactly the codes of the keys in the table, and nothing after a release of all keys |
| KeyboardRuns.TablesAgree | src/keyboard.rs:560-597 | in every reachable state a modifier's flag is set exactly when the key is among those to be released |
| KeyboardRuns.EventSends | src/keyboard.rs:107-116 | exactly what one event changes and sends: a press of a modifier that is down does nothing; all else is tracked and sent |
| KeyboardRuns.PlainKeyRepeats | src/keyboard.rs:363-376 | n presses of a plain key that the peer knows send n events, held or not |
| KeyboardRuns.ModifierIsSentOnce | src/keyboard.rs:363-376 | however often the press of a modifier comes, one event is sent |
| KeyboardRuns.ReleaseAllClears | src/keyboard.rs:378-394 | after a release of all keys no flag is set and nothing is held, in spite of the extra Alt stroke, in any order |
| KeyboardRuns.ReleaseAgrees | src/keyboard.rs:378-394 | in the middle of it the flags agree with the keys still to come |
| KeyboardRuns.OneReleaseSends | src/keyboard.rs:385-392 | one key sends one stroke, Alt three: the long-press filter never swallows the extra press |
| KeyboardRuns.ReleaseSendsStrokes | src/keyboard.rs:378-394 | a release of all keys sends these strokes per key and nothing else |
| KeyboardRuns.StrokeMirrors | src/keyboard.rs:891-957 | one sent stroke changes the remote keys as it changes a set of local keys |
| KeyboardRuns.ReleaseMirrors | src/keyboard.rs:378-394 | each release keeps the remote keys in step with the keys still to come |
| KeyboardRuns.StartIsClear | src/keyboard.rs:42-56 | the initial tables satisfy both invariants |
| Keyboard.Tracker.constructor | src/keyboard.rs:42-56 | all eight flags off, nothing held |
| Keyboard.Tracker.EventToKeyEvents | src/keyboard.rs:560-602 | both tables follow the event; the key events are those of the mode |
| Keyboard.Tracker.ProcessEvent | src/keyboard.rs:107-116 | an autorepeat of a modifier does nothing; any other event is tracked and sent |
| Keyboard.Tracker.ReleaseRemoteKeys | src/keyboard.rs:378-394 | every held key is released exactly once, in some order |
| Login.KeepsOnlyOwnPasswords | src/client.rs:2529-2554 | with a fixed salt and no side switch, however the handlers are called, the kept password and the one offered to the personal address book are the user's own, never a shared or built-in one |
| Login.StepIsTraced | src/client.rs:3384-3490 | every handler keeps password and source consistent |
| Login.AnswersAreAccepted | src/client.rs:3384-3490 | shared, preset, built-in, typed and earlier-hashed passwords all give the answer that the other side computes |
| Login.RememberedPasswordWorks | src/client.rs:2535-2554 | a remembered password answers any later challenge under the same salt |
| Login.FirstAvailable | src/client.rs:3403-3490 | of the six places a password can come from the first one that has one is used, with its source; the answer, and all of the new state |
| Login.NothingAvailable | src/client.rs:3403-3490 | with none an empty answer is sent |
| Login.SwitchAsked | src/client.rs:3394-3402 | a side switch leaves the password alone and forgets its source |
| Login.EmptyLogin | src/client.rs:3558-3566 | an empty login uses the password of before, or else the stored one |
| Login.OtherErrorsKeepAll | src/client.rs:3330-3342 | only a wrong password is cleared, and nothing beside it |
| Login.TypedIsKept | src/client.rs:2535-2554 | a typed password is stored and offered to the personal address book when it is to be remembered, and else nothing is kept |
| Login.PersonalIsKept | src/client.rs:2545-2549 | the entry of the personal address book is stored when it is used, and not offered back |
| Login.StoredStays | src/client.rs:2535-2583 | the stored password is used and stays |
| Login.SharedIsOnlyUsed | src/client.rs:2535-2583 | a shared password is used without being stored or offered |
| Login.RejectedPasswordIsForgotten | src/client.rs:3330-3342 | after a rejected password, in any run, it is neither used nor stored again unless it was stored already or is given once more |
| Login.HandlerKeepsSharedIff | src/client.rs:2535-2554 | for every state of the handler with a shared password in use: after the next hash message its digest is stored exactly when passwords are remembered, and it was stored already, or a side switch is asked for, or the salt is new and no other shared password comes with the connection |
| Login.ReconnectKeepsSharedIff | src/client.rs:1826-1837 | the same for a handler that is built anew from the token of the last connection |
| Login.BuiltInPasswordIsKept | src/client.rs:3384-3490 | a handler that lives on over a reconnect stores the built-in password although nothing was stored before |
| Login.SharedPasswordIsKept | src/client.rs:1686-1717 | a handler built anew that stores a shared password |
| Login.SwitchStoresNothing | src/client.rs:3395-3401 | over whole runs, when a side switch waits for the first hash and nothing is stored, it stores no shared password |
| Login.LoginConfigHandler.constructor | src/client.rs:1826-1837 | a new handler starts from the stored password and the connection token |
| Login.LoginConfigHandler.HandleHash | src/client.rs:3384-3490 | the order of precedence of the password sources, and the reply |
| Login.LoginConfigHandler.HandleLoginFromUi | src/client.rs:3550-3583 | a typed password replaces password and source; an empty one falls back |
| Login.LoginConfigHandler.HandleLoginError | src/client.rs:3330-3342 | only a wrong password is cleared |
| Login.LoginConfigHandler.HandlePeerInfo | src/client.rs:2529-2583 | the new stored password and the one offered to the address book |
| Lan.RoundIsMoveToFront | src/lan.rs:305-344 | for any answers the final list is the peers that answered, latest answer first, then the silent ones in stored order, offline; each address of a peer's answers is kept with its earliest value, and it is online exactly when its last answer says so or replaced an entry after its id had answered |
| Lan.OlderWins | src/lan.rs:317-325 | one merge keeps the earliest value per address |
| Lan.EntryFirst | src/lan.rs:317-325 | a first answer gives an entry with its data |
| Lan.EntryAgain | src/lan.rs:317-325 | a further answer gives the newer data and all addresses |
| Lan.EntryStays | src/lan.rs:317-325 | answers of other peers leave an entry as it is |
| Lan.SilentLoses | src/lan.rs:317-325 | a first answer takes exactly its own entry out of the silent part |
| Lan.NothingStaleIff | src/lan.rs:317-325 | no address of an earlier round survives, whatever was stored, exactly when ids alone tell the answering peers apart |
| Lan.NoNewDuplicates | src/lan.rs:305-344 | a list without duplicates stays so |
| Lan.SamePeerIff | libs/hbb_common/src/config.rs:1903-1907 | two answers are from the same peer exactly when id and user name are the same |
| Lan.StaleAddressSurvives | src/lan.rs:317-325 | a round in which an old address survives |
| Lan.Receive | src/lan.rs:317-325 | one answer moves its peer to the front |
| Lan.HandleReceivedPeers | src/lan.rs:305-344 | the loop computes the fold over the answers that the theorems are about |
| Sessions.PredictionHolds | src/flutter.rs:2129-2139 | in every reachable state the prediction is true exactly when the removal returns a peer, and then that peer alone leaves the table |
| Sessions.PredictionRightIff | src/flutter.rs:2098-2139 | in any table the prediction is right for every walk order exactly when all peers with the id agree on whether it is their only session |
| Sessions.StepKeepsValid | src/flutter.rs:2251-2282 | every operation keeps ids under one peer at most and every peer with a session; a removed id is gone |
| Sessions.StepIsExact | src/flutter.rs:2098-2282 | an operation adds the one session if it may, or takes the one out, and touches no other; a peer is there as long as it has one |
| Sessions.RunKeepsValid | src/flutter.rs:2098-2282 | so does every run |
| Sessions.SharedIdBreaksPrediction | src/flutter.rs:2251-2282 | an id given to a second peer breaks the prediction |
| Sessions.LostInGapIff | src/flutter.rs:2098-2119 | a session that nobody removes in the gap of a removal goes with the dropped peer exactly when it was added under it in the gap |
| Sessions.SessionIsLost | src/flutter.rs:2098-2119 | such a session |
| Sessions.TwoHalves | src/flutter.rs:2098-2119 | with nothing in between, the two halves are one removal |
| Sessions.SessionRegistry.FindKey | src/flutter.rs:2077-2090 | finds a peer with the id whenever there is one |
| Sessions.SessionRegistry.SessionAdd | src/flutter.rs:1322-1328 | refuses exactly the ids in use, and otherwise adds the session |
| Sessions.SessionRegistry.InsertPeerSessionId | src/flutter.rs:2251-2282 | adds a session to a connected peer only (the frame slot is `Frames.FlutterHandler.InsertPeerSession`) |
| Frames.FlutterHandler.InsertPeerSession | src/flutter.rs:2258-2274 | the new session, and that opening a single display frees its slot and no other |
| Sessions.SessionRegistry.TakeOutSession | src/flutter.rs:2100-2114 | takes the id out from one peer that has it, and notes the peer when it was its last session |
| Sessions.SessionRegistry.DropPeer | src/flutter.rs:2115-2118 | drops the noted peer with the sessions it has by then |
| Sessions.SessionRegistry.RemoveSessionBySessionId | src/flutter.rs:2098-2119 | with nothing in between: removes the id from one peer that has it, and the peer with its last session |
| Sessions.SessionRegistry.WouldRemovePeerBySessionId | src/flutter.rs:2129-2139 | says whether the id is the only session of a peer that has it |
| Frames.WaitingFramesWereTold | src/flutter.rs:1186-1245 | in every run the display of a frame that waits to be fetched has been put into some UI stream since the frame was stored |
| Frames.AnnouncementIs | src/flutter.rs:1215-1232 | by values: who gets the display as a new last entry of the stream, and that nothing else changes |
| Frames.ToldIsGiven | src/flutter.rs:1215-1232 | somebody counts as told exactly when some stream has got the display |
| Frames.FrameStaysUntilFetched | src/flutter.rs:1088-1102 | a waiting frame stays as it is until the UI takes it or the table is cleared, whatever comes in between |
| Frames.FrameWaitsIff | src/flutter.rs:1200-1244 | whatever other threads do between storing and announcing, a frame that found a free slot waits in it afterwards exactly when the announcement has put its display into some stream and nobody took it or cleared the table before |
| Frames.BuffersAreConserved | src/flutter.rs:1186-1212 | the swaps neither lose nor duplicate a pixel buffer, over whole runs |
| Frames.FlutterHandler.Announce | src/flutter.rs:1215-1232 | exactly the eligible sessions are told, once each |
| Frames.FlutterHandler.OnRgbaSoftRender | src/flutter.rs:1186-1245 | the whole handling of a frame and the buffer handed back |
| Frames.FlutterHandler.GetRgba | src/flutter.rs:1088-1095 | the waiting frame, if any |
| Frames.FlutterHandler.NextRgba | src/flutter.rs:1098-1102 | frees this slot and no other |
| Frames.FlutterHandler.UpdateUseTextureRender | src/flutter.rs:657-661 | clears the table |
| Punch.PacketBound | src/common.rs:2188-2237 | whatever wakes the loop, and however often, one call sends at most 104 packets when the clock readings that belong together are less than 12 ms apart |
| Punch.PacketBoundAnyPause | src/common.rs:2203-2218 | and at most 105 whatever the pauses, as long as the clock does not run backwards |
| Punch.BoundHoldsIff | src/common.rs:2198-2207 | the bound of 104 is reached, and it holds of all runs exactly under that condition |
| Punch.AnyPauseHoldsIff | src/common.rs:2198-2218 | the bound of 105 is reached, and it holds of all runs exactly when the two readings at the start are less than 12 ms apart |
| Punch.RunOnSchedule | src/common.rs:2206-2220 | the interval is the one for the number of packets sent, and these took at least the sum of the intervals before |
| Punch.LaterIntervals | src/common.rs:2214-2217 | from the sixth repeat on the interval is 200 ms, after 412 ms at least |
| Punch.IntervalGrows | src/common.rs:2214-2217 | the interval never gets shorter |
| Punch.RepeatsIff | src/common.rs:2206-2220 | a wake-up repeats the packet exactly when the interval since the packet before is over; the next one is half as long again, at most 200 ms |
| Punch.EndsAt | src/common.rs:2222-2234 | the first datagram ends a call that connects, the first one with bytes a call that listens, an error or twenty seconds either; nothing is sent from then on |
| Punch.StillWaiting | src/common.rs:2202-2236 | without such an event the call goes on |
| Punch.PunchUdp | src/common.rs:2188-2237 | the loop sends the packets and ends as the run over its wake-ups does, with all three clock readings |
| Colour.Str2Color | src/common.rs:2271-2284 | the wrapping 32-bit loop is the base-31 polynomial modulo 2^24 with bit 15 cleared and every other bit its own, under exactly the alpha byte |

## Left out

- Sockets, rendezvous, relay, TLS, HTTP, IPC: I/O over libraries that are not part of this model.
- Audio devices, resampling and sample conversion: a sample is an opaque value. The `ringbuf` crate is not part of this
  model; its ring is written out as a class over an array.
- AudioPlayback.AudioBuffer.Resize: asks for a positive rate and channel count. With a product of zero the code makes a ring
  without room, which is up to the `ringbuf` crate, and divides by zero at the next level. Overflow is not modelled.
- AudioPlayback.AudioBuffer.TryShrink: is split into counting, draining and dropping, which the code writes in one body;
  the lock is not given up between reading the occupancy and dropping, as in the code.
- NameLimits.ReadBackIff: is about file names without copy marks and comments; with them `NameRoundTrip.UncutNameRoundTrip`
  gives the sufficient half.
- CustomServerName.GetCustomServerFromString: lower-casing is that of ASCII letters, so characters whose lower case has
  another length are not modelled; text is a sequence of characters and the error texts are not modelled.
- ClipboardCodec: file lists and the file copy-paste feature, Android and iOS, and the Windows reading of file names by the
  connection manager.
- ClipboardRuns: both ends support several formats; a clipboard write either replaces everything or nothing; the retries of a read and the `running` flag
  of the listening loop are not modelled; the number of notifications per write is bounded by an arbitrary constant.
- Keyboard.Tracker.EventToKeyEvents: the output of the Legacy and Translate modes, the scan-code tables, lock-mode bits and
  the AltGr flags are lookup parameters; top-level calls do not interleave, as they run on one event thread.
- KeyboardRuns.RemoteMirrorsTable: the peer does not change, and each key has one position.
- Login.KeepsOnlyOwnPasswords: fixed salt and no side switch are conditions because both fail otherwise, as
  `Login.HandlerKeepsSharedIff` shows; other fields of the configuration, operating-system logins and other writers of the configuration file are left out.
- Lan.HandleReceivedPeers: the stores every 300 ms while answers come in.
- Sessions: the capture and display messages that go with a registry change.
- Sessions.RunKeepsValid: takes a removal as one step; what can happen between its two halves is in `Sessions.LostInGapIff`.
- Sessions.PredictionHolds: `session_add_existed` does not look the id up, so that the id is not in use for another peer
  is a condition on its callers.
- Frames: event hooks and the texture renderer; each display has one decoder thread.
- Colour.Str2Color: shifts and masks are written as arithmetic.
- Privacy mode, option toggles, mouse masks, command-line handling and the paging scripts are not modelled.
