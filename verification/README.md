# Hawk: spine, mirror, threads and packs in Dafny

A Dafny model of Hawk-tui's Rust track, and proofs about it. Producers send lines to `hawkd`
(the spine), which normalises them and broadcasts them to its socket clients; each `hawk` (a mirror)
reads the bytes back, optionally bridges them through an awk thread, and folds them into an entity
table with liveness and ordering. The documentation promises that the UI is a mirror of the spine. The
main results say in what sense that is true, from input bytes to table, over every run.

| file | what it models |
|---|---|
| `Text`, `Ordering`, `Decimal`, `Utf8` | Rust `trim`/`split`, string order and `BTreeMap` iteration, `i64` text, UTF-8 |
| `Severity`, `KvBag`, `HawkFrame`, `Cuts` | the seven-column frame, its parser and printers, lines that are cut short |
| `Framing`, `Producers`, `Accounting` | `lines()`/`read_line`, the stdin and ingest loops, error receipts |
| `Clients`, `Spine` | the client list with in-place removal; hawkd as a state machine |
| `Entities`, `Board`, `Mirror`, `Reader` | liveness, counts and sort, the `App` object, the mirror's readers |
| `EndToEnd`, `MirrorRefinement`, `ClosedMirror` | delivery, framing, mirror refinement, convergence, the mirror of a dropped client |
| `Merge`, `Bridge`, `ScopeCounts`, `Pipeline`, `FilteredSpine` | channel merge, the awk bridge, the two threads, a filtered mirror from its source and from hawkd |
| `Watchers`, `SystemdFrames`, `Backoff` | health frames and their TTLs, reconnect delays |
| `Packs`, `PackLoader`, `Doctor`, `Smoke` | schema, loader, doctor, smoke check |

`dafny verify dfyconfig.toml` checks everything.

## How to read it

- Sockets carry bytes (`Utf8.bytes`). A run of hawkd (`Spine.Exec`) is any sequence of steps; the
  environment chooses the order, all input bytes, all clock readings and the outcome of every write, so
  a statement about `Exec(cfg, steps)` is a statement about every interleaving.
- Clock readings, write outcomes, the walking order of awk arrays and directory contents are parameters.
- RFC 3339 text belongs to the `time` crate. It enters as `TimeCodec`, of which `Lawful` asks what
  section 5.6 of RFC 3339 gives: printed stamps are non-empty, start with a digit, have no white space and
  reparse to the same stamp; parsed stamps can be printed. `format` may fail, as in the source.
  `Assumptions.SaneWorldExists` shows that the assumptions can be met.
- `None` stands for an error return or a panic where the text of the error does not matter.
- Loops that change state are methods or classes, each proved equal to a function that the lemmas
  are about.

## What turned out not to hold

Each entry names the exact condition, and a lemma that shows the failure at an input that can occur.

- **kv round trip.** A bag entry with empty key and value `true` is lost by one print and parse; nothing
  else is (`KvBag.KvRoundTrip`; `KvBag.LostEntryOccurs`: the bag `=true`). So frames settle at the first
  hop, but the text only at the second (`HawkFrame.HopsSettle`).
- **Exactly seven columns** (docs/SPECS.md section 3) holds for every accepted frame, and for an error
  receipt exactly if path, error text and clipped line have no tab (`Producers.ReceiptHasSevenColumns`,
  `Producers.TabbedReceipt`).
- **One answer per ingest line** fails exactly if a refused line longer than 240 bytes has byte 240
  inside a character: `truncate` panics and the connection's thread ends (`Accounting.IngestAnswersEach`;
  `Accounting.FatalLineExists`: 239 letters and a two-byte character).
- **A mirror holds every frame since it joined**, unless only part of the banner arrived: then the first
  broadcast joins the unfinished comment line and is lost, and the table lacks its row unless it was no
  frame or its key came again (`MirrorRefinement.SwallowExact`, `MirrorRefinement.SwallowHappens`).
- **A mirror holds only rows that were broadcast**, while it is connected. When it is dropped in the
  middle of a line, `lines()` hands the torn piece to the parser. It leaves a row exactly if the greeting
  had arrived whole or not at all or a whole broadcast came before, the line was a frame's, the piece ends
  between two characters, and it has six tabs; with no tab in the columns before the bag the last means
  that the tab before the bag arrived, and the row is that of the frame with the bag read from what is
  there of it (`ClosedMirror.ClosedMirrorHolds`, `ClosedMirror.TornExact`; `ClosedMirror.TornTtl`: a run in
  which a TTL of 3600 becomes 36).
- **fail_only's scope test** is an exact match exactly if the variable is empty or not numeric
  (`FailOnly.ScopeTestExact`; `FailOnly.NumericScopeLeaks`: with `scope=10` a frame of scope `010` passes).
- **scope_counts' labels** are right exactly if the scope has neither `|` nor `;`; its counts are right
  always (`ScopeCounts.EmissionReparses`, `ScopeCounts.FramesConserved`).
- **A clean doctor report implies that loading succeeds**, exactly if no directory entry was unreadable:
  the doctor passes over such entries, the loader does not (`Doctor.DoctorSound`,
  `Doctor.UnreadableEntryMissed`).
- **The smoke check** is sound but trims each line first, and the blank columns at either end go with it.
  Of the lines that a mirror accepts it passes exactly those that still have seven columns then and open
  with a stamp; a line of seven columns passes exactly if it has both a stamp and a bag
  (`Smoke.SmokeSound`, `Smoke.SmokeExact`, `Smoke.SmokeSevenColumns`, `Smoke.SmokeRefusesUnstamped`).
- **TTLs** of gRPC frames reach the mirror even if the spec has semicolons, because the TTL keys sort
  last; a tab in the error text ends the bag before them, and what is left may bring others
  (`Watchers.ErrorTtlReachesMirror`, `Watchers.ErrorTabLosesTtl`). Those of systemd frames arrive exactly as
  `SystemdFrames.SnapshotTtlReachesMirror` says: the unit name is printed behind them and can replace them,
  and a tab in what systemd says of the unit ends the bag before them (`SystemdFrames.UnitCanReplaceTtl`,
  `SystemdFrames.DescriptionTabLosesTtl`).

## Model

| member | source | states |
|---|---|---|
| KvBag.ParseKvBag | crates/hawk_core/src/hawkframe.rs:120-139 | the insertion loop builds the bag that the round-trip lemmas are about |
| KvBag.SerializeKvBag | crates/hawk_core/src/hawkframe.rs:141-154 | the printing loop yields the parts in key order, joined by `;` |
| KvBag.BuildLast | crates/hawk_core/src/hawkframe.rs:126-137 | the last part that gives a key decides its value |
| KvBag.EntryMeaning | crates/hawk_core/src/hawkframe.rs:126-137 | a part splits at its first `=`, blanks around key and value are dropped, a bare key means `true`, a blank part nothing |
| KvBag.KvOfClean | crates/hawk_core/src/hawkframe.rs:120-139 | every parsed bag has trimmed keys and values without `;`, keys without `=`, and no character the text lacks |
| KvBag.KvRoundTrip | crates/hawk_core/src/hawkframe.rs:120-154 | for every text, reparsing the serialised bag gives the same map less only the entry with empty key and value `true`; equal if and only if there is no such entry |
| KvBag.LostEntryOccurs | crates/hawk_core/src/hawkframe.rs:126-152 | the bag `=true` has the lost entry, and is empty after one print and parse |
| KvBag.KvOfTrim | crates/hawk_core/src/hawkframe.rs:120-139 | blanks around a bag do not change it |
| Ordering.SortedKeysUnique | crates/hawk_core/src/hawkframe.rs:146-152 | the iteration order of a `BTreeMap` is forced by its keys |
| Severity.LevelRoundTrip | crates/hawk_core/src/severity.rs:13-31 | `parse` undoes `as_str` |
| Severity.LevelWords | crates/hawk_core/src/severity.rs:13-21 | which words mean which level, in any letter case and with blanks around, if and only if; all others are unknown |
| Severity.UpperWords | crates/hawk_core/src/severity.rs:14-14 | upper-case spellings are lowered to those words |
| HawkFrame.PrintedIsAccepted | crates/hawk_core/src/hawkframe.rs:35-117 | any printed frame, whatever its fields hold, is accepted again with the stamp it was printed with |
| HawkFrame.ParsedIsClean | crates/hawk_core/src/hawkframe.rs:35-82 | every accepted frame has trimmed, tab-free columns, a clean bag and a printable stamp |
| HawkFrame.FrameRoundTrip | crates/hawk_core/src/hawkframe.rs:35-117 | for every accepted line, print and parse keeps all fields and the stamp (stamped if absent), loses only the lost entry, and the line has exactly 7 columns |
| HawkFrame.HopsSettle | crates/hawk_core/src/hawkframe.rs:35-117 | any number of hops equals one hop on frames; the text is fixed from the second hop on |
| HawkFrame.ColumnOrder | crates/hawk_core/src/hawkframe.rs:30-82 | seven clean columns in the documented order, the first a printed stamp, parse to exactly the frame with those fields |
| HawkFrame.CompactIsPrefix | crates/hawk_core/src/hawkframe.rs:84-117 | the compact line of a stamped frame is its full line without the bag column |
| HawkFrame.CompactUnstamped | crates/hawk_core/src/hawkframe.rs:84-101 | without a stamp it is the same line with an empty first column |
| HawkFrame.HeadRoundTrip | crates/hawk_core/src/hawkframe.rs:35-117 | the six columns in front of the bag survive whatever the bag holds |
| HawkFrame.HeadAndTail | crates/hawk_core/src/hawkframe.rs:35-82 | six tab-free columns that open with a stamp stay the first six, whatever follows |
| HawkFrame.HeadColumnCount | crates/hawk_core/src/hawkframe.rs:103-117 | such a line has seven columns if and only if its bag prints no tab |
| Cuts.LineMeaning | crates/hawk_core/src/hawkframe.rs:35-82 | what any line means, stamped or not, with blanks around every column and columns behind the bag: a comment, an error that counts the columns or quotes the stamp, or a frame with each field from its own column |
| Cuts.LineHasCells | crates/hawk_core/src/hawkframe.rs:35-82 | every line has the form that LineMeaning speaks of |
| Cuts.BlankLine | crates/hawk_core/src/hawkframe.rs:36-42 | a line with nothing to see is ignored |
| Cuts.UnprintableStamp | crates/hawk_core/src/hawkframe.rs:103-117 | a clean frame whose stamp cannot be formatted rereads without a stamp, and otherwise the same but for the lost entry |
| Cuts.RereadColumns | crates/hawk_core/src/hawkframe.rs:35-117 | any printed frame, whatever its fields hold, is reread from the first columns that its printed line splits into |
| Cuts.BagUpToTab | crates/hawk_core/src/hawkframe.rs:141-154 | a printed bag up to its first tab is the entries of the keys before the one that holds it, and that entry up to the tab |
| Cuts.TornPieceExact | crates/hawk_core/src/hawkframe.rs:35-117 | the start of any printed line is accepted if and only if it has six tabs, for a tab-free head if and only if the tab before the bag is in it; then as that frame with the bag read from the piece |
| Utf8.DecodeEncode | crates/hawkd/src/main.rs:239-241 | decoding undoes encoding |
| Utf8.EncodeDecode | crates/hawk/src/io.rs:77-80 | what decodes at all re-encodes to the same bytes: no overlong or surrogate form is taken |
| Utf8.EncodePrefix | crates/hawk/src/io.rs:77-80 | a piece of encoded text that decodes at all decodes to the start of the text |
| Framing.LinesOfConcat | crates/hawk/src/io.rs:77-78 | splitting the concatenation of one-line messages recovers exactly the messages |
| Framing.ItemsAreOneLine | crates/hawkd/src/main.rs:226-235 | whatever bytes come in, a line read has no newline inside |
| Producers.MessageIsOneLine | crates/hawkd/src/main.rs:237-250 | every message sent is one newline-terminated line, and `lines()` gives its text back |
| Producers.MessageHeard | crates/hawkd/src/main.rs:237-250 | a reader parses a frame message to the normalised frame with the spine's stamp, and ignores a strict-error comment |
| Producers.HashIsIgnored | crates/hawk_core/src/hawkframe.rs:36-42 | any text that opens with `#` is ignored |
| Producers.StdinSource | crates/hawkd/src/main.rs:221-254 | the loop sends the bytes of exactly the messages of `Talk` |
| Producers.HandleIngestClient | crates/hawkd/src/unix_ingest.rs:64-98 | the same for an ingest connection, receipts and panic included |
| Producers.ParseErrorFrame | crates/hawkd/src/unix_ingest.rs:103-128 | builds the receipt, or panics |
| Producers.ReceiptBag | crates/hawkd/src/unix_ingest.rs:104-117 | its bag has the path, the error text and the clipped line, each under its own key |
| Producers.ClipExact | crates/hawkd/src/unix_ingest.rs:111-117 | the clip succeeds if and only if the line fits in 240 bytes or a character ends at byte 240; it is then the line, or its first 240 bytes and three dots |
| Producers.ReceiptReparses | crates/hawkd/src/unix_ingest.rs:84-128 | every receipt reparses with stamp, kind, scope, id, level and message intact, whatever raw line, path and error hold |
| Producers.ReceiptHasSevenColumns | crates/hawkd/src/unix_ingest.rs:84-128 | it has seven columns if and only if none of the three holds a tab |
| Producers.TabbedReceipt | crates/hawkd/src/unix_ingest.rs:84-128 | a refused line whose receipt has more than seven columns |
| Producers.ClipPanics | crates/hawkd/src/unix_ingest.rs:111-117 | 239 one-byte characters, a wider one and anything behind it cannot be clipped |
| Accounting.IngestAnswersEach | crates/hawkd/src/unix_ingest.rs:75-97 | lenient ingest sends one line per line that is neither blank nor a comment, if and only if no refused line makes the clip panic |
| Accounting.FatalLineExists | crates/hawkd/src/unix_ingest.rs:84-117 | there is a refused line on which the clip panics, for every codec |
| Accounting.StrictIsPrefix | crates/hawkd/src/unix_ingest.rs:84-93 | strict ingest sends what lenient ingest sends up to and including the first refused line's receipt |
| Accounting.AcceptedIsSent | crates/hawkd/src/main.rs:237-242 | an accepted line is sent with the clock of its line, unless an earlier line ended the loop; says which lines do |
| Accounting.LineAnswered | crates/hawkd/src/unix_ingest.rs:75-97 | on stdin or ingest, strict or not, one more line adds exactly its answer: the frame, nothing, a notice, or a receipt with that line, its error and the path (nothing where the clip panics) |
| Accounting.NothingAfter | crates/hawkd/src/unix_ingest.rs:91-96 | nothing is sent behind the line that ends the loop |
| Accounting.StdinStrict | crates/hawkd/src/main.rs:237-251 | strict stdin sends what lenient stdin sends before the first refused line, then one comment, and stops |
| Clients.ClientList.constructor | crates/hawkd/src/main.rs:130-130 | starts with no clients |
| Clients.ClientList.Push | crates/hawkd/src/main.rs:207-211 | appends the client and changes nothing else |
| Clients.ClientList.Broadcast | crates/hawkd/src/main.rs:260-281 | walking by index with in-place removal keeps exactly the clients whose write succeeded, in order, each with the message appended |
| Clients.WrittenSurvives | crates/hawkd/src/main.rs:266-280 | no client is skipped by the removal of another |
| Clients.BroadcastPartitions | crates/hawkd/src/main.rs:266-280 | each client ends on exactly one side |
| Spine.ReplyIsSound | crates/hawkd/src/unix_ingest.rs:75-97 | whatever line is read, what is sent is one line, and a clean frame, a receipt or a notice |
| Spine.OfferServes | crates/hawkd/src/main.rs:266-280 | one write keeps delivery: in full if it succeeds, as a prefix if it fails |
| Spine.StepKeepsInv | crates/hawkd/src/main.rs:186-281 | every step keeps channel order, producer accounting and delivery |
| Spine.RunKeepsInv | crates/hawkd/src/main.rs:186-281 | the invariant holds after every run |
| EndToEnd.Delivery | crates/hawkd/src/main.rs:198-216 | in every run a live client has what arrived of the banner, then all messages broadcast since its push, in order; splitting the bytes recovers them |
| EndToEnd.DroppedHoldsPrefix | crates/hawkd/src/main.rs:260-281 | a dropped client holds a prefix of what a survivor with the same join point and greeting holds |
| EndToEnd.DroppedLines | crates/hawkd/src/main.rs:260-281 | it holds every whole line before the fatal one, and a torn piece of that one at most |
| EndToEnd.ChannelIsFaithful | crates/hawkd/src/main.rs:132-188 | log and queue together are all that was sent, in order; each producer's part is what its loop sends when alone |
| EndToEnd.BannerReading | crates/hawkd/src/main.rs:202-204 | the banner is one line and changes no mirror state |
| EndToEnd.SwallowedReading | crates/hawkd/src/main.rs:202-211 | an unfinished banner turns the next message into a comment |
| EndToEnd.MirrorOfMessages | crates/hawk/src/io.rs:77-97 | a drained mirror has met no error, has counted each frame it could make out once, shows the newest in its tail, and holds the table of those messages |
| MirrorRefinement.MirrorHoldsLastFrames | crates/hawk/src/app.rs:58-97 | in every run a live drained mirror has a row for a key if and only if a frame for it was broadcast since it joined, and the row is that of the last one, whatever its own clock and strict flag; counter and tail are those of the frames since then |
| MirrorRefinement.LateJoinersConverge | crates/hawk/src/app.rs:66-97 | two live drained mirrors agree on every key the later one has |
| MirrorRefinement.SwallowExact | crates/hawkd/src/main.rs:202-211 | its table is that of everything broadcast since it joined if and only if the greeting arrived whole or not at all, or nothing was broadcast since, or the first broadcast was no frame, or its key came again |
| MirrorRefinement.SwallowHappens | crates/hawkd/src/main.rs:202-211 | a run of four steps in which the only frame broadcast never shows, for any frame |
| MirrorRefinement.FirstRow | crates/hawk/src/app.rs:84-94 | the table of some messages is the row of the first under the table of the rest |
| ClosedMirror.ClosedMirrorHolds | crates/hawk/src/io.rs:77-97 | in every run the mirror of a dropped client ends with the table of the broadcasts it got whole and, on top, the row of what its unfinished last line passes as, if it does; the frame counter says the same |
| ClosedMirror.TornExact | crates/hawk/src/io.rs:77-97 | in every run that line passes if and only if the greeting is out of the way, the fatal broadcast was a frame and the piece decodes and has six tabs; for a tab-free head if and only if the bytes up to the tab before the bag arrived and the piece decodes; and as what |
| ClosedMirror.TornTtl | crates/hawk/src/io.rs:77-97 | a run of four steps whose closed mirror shows the only frame broadcast with a hundredth of its TTL |
| MirrorRefinement.RowContent | crates/hawk/src/app.rs:71-94 | what line producers send is a clean frame or a receipt; a row has the spine's stamp and, field by field, what the columns of the printed line say: the columns of any frame with a clean head, the whole bag of a clean frame less the lost entry, and the bag of a frame with a tab-free head up to its first tab |
| Entities.LivenessMonotone | crates/hawk/src/app.rs:110-141 | as time advances an entity only moves Active, Dream, Stale, Dead, for all TTLs and overrides |
| Entities.AgeThreshold | crates/hawk/src/app.rs:117-125 | when whole seconds reach a TTL, in nanoseconds, for positive and non-positive TTLs |
| Entities.LivenessInRealTime | crates/hawk/src/app.rs:117-134 | which of the four states holds when, in nanoseconds, if and only if, for all TTLs and stamps |
| Entities.OrdinaryLiveness | crates/hawk/src/app.rs:117-134 | for 2 <= stale <= dead the four states are consecutive intervals |
| Board.BucketsPartition | crates/hawk/src/app.rs:151-165 | the five buckets add up to the number of entities |
| Board.DeadNeverDecreases | crates/hawk/src/app.rs:143-166 | without ingest the dead total never decreases |
| Board.NotAfterTotal | crates/hawk/src/app.rs:171-191 | the comparator is total |
| Board.NotAfterTransitive | crates/hawk/src/app.rs:171-191 | the comparator is transitive |
| Board.StableSortIsStable | crates/hawk/src/app.rs:168-193 | the sort is ascending, a permutation, and keeps tied rows in order |
| Board.StableSortUnique | crates/hawk/src/app.rs:171-191 | there is only one such arrangement, so the algorithm does not matter |
| Board.BoardAgrees | crates/hawk/src/app.rs:143-193 | the first `dead` rows are exactly the dead entities, the next `stale` rows exactly the stale ones |
| Board.BoardOrder | crates/hawk/src/app.rs:175-190 | within a liveness worst level first, then newest, then by id; live above quiet |
| Mirror.App.constructor | crates/hawk/src/app.rs:45-56 | starts empty with the given options |
| Mirror.App.Ingest | crates/hawk/src/app.rs:58-64 | one message changes the state as `Ingested` says, whole state |
| Mirror.App.IngestFrame | crates/hawk/src/app.rs:66-97 | the same for a frame |
| Mirror.App.PushTail | crates/hawk/src/app.rs:99-104 | newest line in front, at most `tail_size` lines |
| Mirror.App.CountsByState | crates/hawk/src/app.rs:143-166 | `fail`, `warn` and `ok` are the numbers of rows neither stale nor dead whose last level is fail, warn, or any other; `stale` and `dead` those of the rows in that state; they add up to the total |
| Board.CountsAreTallied | crates/hawk/src/app.rs:143-166 | the bucket counts are those numbers, each counted from the rows' liveness and last level alone |
| Mirror.App.SortedEntities | crates/hawk/src/app.rs:168-193 | returns the stable sort of the rows in key order |
| Mirror.IngestAllShape | crates/hawk/src/app.rs:58-104 | state after any messages: counters add up to the messages, tail is the newest `tail_size` compact lines newest first, table is that of the frames |
| Mirror.TailShowsNewest | crates/hawk/src/app.rs:99-104 | the i-th tail line is the compact line of the i-th newest frame, up to `tail_size` |
| Mirror.TableLast | crates/hawk/src/app.rs:84-94 | the last frame of a key decides its row |
| Mirror.TableOrigin | crates/hawk/src/app.rs:84-94 | every row goes back to the last frame of its key |
| Reader.ReadLoop | crates/hawk/src/io.rs:19-97 | the reading loop delivers exactly the messages of `Deliver` |
| Reader.UnixReader | crates/hawk/src/io.rs:68-97 | a failed connect delivers one error and nothing else |
| Reader.OneMessageEach | crates/hawk/src/io.rs:19-97 | a frame, a refused line and a read error are one message each, an ignored line none |
| Reader.LenientExact | crates/hawk/src/io.rs:19-97 | lenient reading delivers one message per reading that is not ignored, up to and including the first read error |
| Reader.StrictExact | crates/hawk/src/io.rs:34-39 | strict reading is lenient reading up to and including the first refused line |
| Reader.StrictReadsPrefix | crates/hawk/src/io.rs:34-39 | strict reading is a prefix of lenient reading, and equal if no line is refused |
| Merge.MergeConfluence | crates/hawk/src/main.rs:185-215 | any two interleavings of the three channels leave the same mirror state; the counters add up to the messages |
| Bridge.WriterThread | crates/hawk/src/awk.rs:68-85 | what reaches awk up to the first failed write, newline or flush: whole lines, and what bytes came of one more; one complaint whose text says which |
| Bridge.ReaderThread | crates/hawk/src/awk.rs:88-107 | forwards the accepted frames and complains once per refused line, up to a read error, which is one more complaint and the end |
| FailOnly.Run | packs/hawk.core/fail_only.awk:13-20 | the record loop keeps exactly the lines of `Kept` |
| Awk.RespelledSame | packs/hawk.core/fail_only.awk:17-17 | every numeric string has another spelling of the same value that a scope can hold |
| Awk.DigitsAreNumbers | packs/hawk.core/fail_only.awk:17-17 | a string of digits has its decimal value |
| Awk.NumberSpellings | packs/hawk.core/fail_only.awk:17-17 | digits with a sign, with `.0` or `e1` behind them or a blank in front have their usual value |
| FailOnly.ScopeTestExact | packs/hawk.core/fail_only.awk:17-17 | the scope test is an exact match on every scope if and only if the variable is empty or not numeric |
| FailOnly.NumericScopeLeaks | packs/hawk.core/fail_only.awk:13-20 | with `scope=10` every warning or failure of scope `010` passes |
| FailOnly.BridgeFilters | crates/hawk/src/awk.rs:68-106 | print, `fail_only`, parse equals filtering the normalised frames by level and scope, in order and without complaint; reading only some lines gives the first of them |
| ScopeCounts.Counter.constructor | packs/hawk.core/scope_counts.awk:5-9 | starts with no counts and the first window, of 10 seconds if the variable is empty |
| ScopeCounts.Counter.OnRecord | packs/hawk.core/scope_counts.awk:28-46 | one record changes counts, window and output by the step whose runs `ScopeCounts.WindowExact` describes |
| ScopeCounts.Counter.EmitAll | packs/hawk.core/scope_counts.awk:38-42 | the loop prints every count once and resets it |
| ScopeCounts.CountsConserved | packs/hawk.core/scope_counts.awk:28-46 | for every input, clock and walking order, printed plus pending equals the records with that key |
| ScopeCounts.WindowExact | packs/hawk.core/scope_counts.awk:28-46 | a record prints if and only if it is read at or after the end of the current window; it then prints every key so far once, with its records since the last time, and nothing stays pending; else output and window are unchanged |
| ScopeCounts.EpochLine | packs/hawk.core/scope_counts.awk:11-36 | a record without a stamp prints the epoch |
| ScopeCounts.PairKeyInjective | packs/hawk.core/scope_counts.awk:29-31 | different scopes or levels never share a key |
| ScopeCounts.FramesConserved | packs/hawk.core/scope_counts.awk:28-46 | behind the bridge: printed plus pending equals the frames with that scope and level |
| ScopeCounts.EmissionReparses | packs/hawk.core/scope_counts.awk:11-26 | an emitted line is accepted with the record's stamp, and names its scope, level, count and window if and only if the scope has neither `\|` nor `;` |
| ScopeCounts.CountsReadBack | packs/hawk.core/scope_counts.awk:11-46 | frames to frames, when no scope has `\|` or `;`: the counts read back from the parsed output for a scope and level, plus the pending one, are the number of frames with them |
| Pipeline.SourceItemsAreOneLine | crates/hawk/src/io.rs:27-97 | neither reader hands a line with a newline inside to the parser |
| Pipeline.TornRecordPasses | packs/hawk.core/fail_only.awk:13-20 | a torn last record comes back if and only if it decodes, the tab before the bag is in it and its frame is wanted; and as what |
| Pipeline.BridgeForwards | crates/hawk/src/awk.rs:68-107 | what comes back however the writer and the reader end: the first wanted frames among those that reached awk, then what a torn record passed as; and what is complained about |
| Pipeline.FilteredMirror | crates/hawk/src/main.rs:155-216 | a mirror with `fail_only`, for all source input, write failures, read failures, interleavings and clocks: rows, tail and counters are those of these frames, of all errors of the source and of all complaints of the bridge |
| FilteredSpine.FilteredMirrorHoldsLastFrames | crates/hawk/src/main.rs:155-216 | on a hawkd socket, in every run: such a mirror has a row for a key if and only if a wanted frame for it was broadcast since it joined, and the row is that of the last one |
| FilteredSpine.SocketFrames | crates/hawk/src/io.rs:77-97 | what it reads is exactly the frames of the broadcasts it heard, without error |
| Watchers.EmitStatusFrame | crates/hawkd/src/grpc_health.rs:282-313 | the frame sent has the level, message and status of each serving state and the spec in its bag, and every mirror judges it with the configured TTLs where positive |
| Watchers.EmitErrorFrame | crates/hawkd/src/grpc_health.rs:319-345 | the error frame is a failure with the message, and its bag has the spec, the error and the TTLs |
| Watchers.KeySurvives | crates/hawk_core/src/hawkframe.rs:120-154 | an entry survives print and parse if what prints behind it is plain, whatever prints before it |
| Watchers.StatusTtlReachesMirror | crates/hawkd/src/grpc_health.rs:282-313 | a mirror judges a reread status frame with hawkd's TTLs where positive and its own defaults elsewhere |
| Watchers.JudgedByColumn | crates/hawk/src/app.rs:106-141 | any frame is judged by the TTLs in the column that a reader takes for its bag |
| Watchers.ErrorTtlReachesMirror | crates/hawkd/src/grpc_health.rs:319-345 | the same for error frames, for every error text: with a tab in it, by the TTLs, if any, in the endpoint and the text up to the tab, else the mirror's own |
| Watchers.ErrorTabLosesTtl | crates/hawkd/src/grpc_health.rs:319-345 | so without semicolons a tab in the error text makes it the mirror's own |
| SystemdFrames.EmitSnapshotFrame | crates/hawkd/src/systemd.rs:159-207 | the frame sent has the unit and its states in its bag, a description exactly if the unit has one, and every mirror judges it with the configured TTLs if the unit name has no semicolon |
| SystemdFrames.SnapshotTtlReachesMirror | crates/hawkd/src/systemd.rs:183-205 | the TTLs a mirror uses for a snapshot, exactly, whatever the unit name, its states and its description hold |
| SystemdFrames.PlainUnitKeepsTtl | crates/hawkd/src/systemd.rs:183-192 | without a semicolon in the unit name they are the configured ones |
| SystemdFrames.UnitCanReplaceTtl | crates/hawkd/src/systemd.rs:183-192 | with one, the unit name can replace them |
| SystemdFrames.DescriptionTabLosesTtl | crates/hawkd/src/systemd.rs:183-205 | so without semicolons a tab in the description makes it the mirror's own |
| Decimal.ParseShow | crates/hawk/src/app.rs:196-204 | every 64-bit integer survives print and parse |
| Decimal.ParseI64Exact | crates/hawk/src/app.rs:196-204 | which texts are 64-bit integers: an optional sign and digits, with a value in range |
| Backoff.WatchOne | crates/hawkd/src/grpc_health.rs:130-182 | every round that connects sleeps 250 ms; the k-th consecutive connect failure sleeps min(250·2^k, 15000) from the start and min(500·2^k, 15000) after a connected round |
| Backoff.WatchUnitOnce | crates/hawkd/src/systemd.rs:108-154 | a unit watch never ends in success, and sends exactly one snapshot before subscribing and one per signal up to the first failure |
| Backoff.RetryLoop | crates/hawkd/src/systemd.rs:86-103 | the delay for any results: doubling since the last success, capped |
| Backoff.WatchOneUnit | crates/hawkd/src/systemd.rs:86-154 | so the n-th retry always sleeps min(250·2^n, 15000) ms |
| Backoff.DelayBounds | crates/hawkd/src/grpc_health.rs:131-140 | no delay is below 250 ms or above 15 s, and six doublings reach the cap |
| Packs.ValidateTvars | crates/hawk/src/packs.rs:174-198 | accepts exactly the valid maps, and otherwise names the first variable in key order that is undeclared or does not fit |
| Packs.DeclaredLast | crates/hawk/src/packs.rs:174-206 | the last declaration of a name decides its type and its default |
| Packs.DeclaredSomewhere | crates/hawk/src/packs.rs:174-206 | a declared name has a declaration, and its type and default come from it |
| Packs.DefaultTvars | crates/hawk/src/packs.rs:200-206 | collects the last declared default of each name |
| Packs.MergeTvars | crates/hawk/src/main.rs:166-169 | user variables over defaults |
| Packs.SchemaAcceptance | crates/hawk/src/packs.rs:174-206 | the merged map validates if and only if every user variable is declared and, by its last-declared type, is a 64-bit integer or one of `true`, `false`, `1`, `0`, and no un-overridden int or bool default is blank |
| PackLoader.ParsePackManifest | crates/hawk/src/packs.rs:211-274 | the manifest loop with its early returns |
| PackLoader.ParseManifestArgs | crates/hawk/src/packs.rs:237-253 | the argument loop |
| PackLoader.ManifestAccepted | crates/hawk/src/packs.rs:220-262 | a manifest is accepted if and only if every thread meets the listed conditions; the threads are then, in order and field by field, as the manifest has them |
| PackLoader.ResolvesExactly | crates/hawk/src/packs.rs:131-155 | when loading succeeds, every thread of every manifest is indexed under its own id with its pack id, its script and its fields and arguments, and every indexed id is that of such a thread |
| PackLoader.LoadedContent | crates/hawk/src/packs.rs:131-161 | the index has the parsed packs in directory order, and every thread of each under its own id |
| PackLoader.FoundContent | crates/hawk/src/packs.rs:211-274 | a parsed pack has its manifest's id, name, version, author and description, its directory, and the manifest's threads |
| PackLoader.ParsedDefaultsOk | crates/hawk/src/packs.rs:249-252 | accepted arguments have acceptable defaults |
| PackLoader.IndexThreads | crates/hawk/src/packs.rs:140-156 | indexes a pack's threads, or fails on a collision, as the function behind `PackLoader.ResolvesExactly` does |
| PackLoader.LoadPacks | crates/hawk/src/packs.rs:113-162 | the loader with its early returns computes what `PackLoader.ResolvesExactly` and `PackLoader.LoadedContent` describe |
| PackLoader.LoadAllShape | crates/hawk/src/packs.rs:131-159 | loading succeeds if and only if nothing is broken and no thread id repeats; the index is over exactly those ids |
| Doctor.ExamineThreads | crates/hawk/src/doctor.rs:115-171 | the loop over a pack's threads computes the step behind `Doctor.ReportSays` and `Doctor.WalkAccounts` |
| Doctor.RunPackDoctor | crates/hawk/src/doctor.rs:66-175 | the whole walk computes the report that `Doctor.ReportSays`, `Doctor.WalkAccounts`, `Doctor.CleanReport` and `Doctor.NothingListed` describe |
| Doctor.ReportSays | crates/hawk/src/doctor.rs:95-172 | exactly the errors and notes that the checks find in a script are reported, under its thread's id; exactly the broken manifests and the packs without threads under their directory |
| Doctor.WalkAccounts | crates/hawk/src/doctor.rs:115-123 | an id is seen under the directory where it is met first, and each directory where it is met again has a collision error that names the first |
| Doctor.CleanReport | crates/hawk/src/doctor.rs:66-175 | a report has no errors if and only if no manifest is broken, no thread id repeats and no check finds an error |
| Doctor.NothingListed | crates/hawk/src/doctor.rs:69-90 | a missing directory is one warning, an unlistable one is one error, and nothing else is reported |
| Doctor.DoctorAgreesWithLoader | crates/hawk/src/doctor.rs:93-175 | collision errors equal threads minus distinct ids; loading succeeds if and only if there is no structural error and no unreadable entry; the ids agree |
| Doctor.DoctorSound | crates/hawk/src/doctor.rs:66-175 | a report without errors implies that loading succeeds over exactly the seen ids, if and only if no directory entry was unreadable |
| Doctor.UnreadableEntryMissed | crates/hawk/src/doctor.rs:76-84 | with an unreadable entry a report without errors and a failed load go together |
| Smoke.CheckOutput | crates/hawk/src/doctor.rs:379-394 | passes exactly if every line passes |
| Smoke.SmokeSound | crates/hawk/src/doctor.rs:379-392 | a line accepted after trimming is accepted untrimmed by the mirror's parser |
| Smoke.SmokeExact | crates/hawk/src/doctor.rs:379-392 | of the lines the mirror accepts, those pass that keep seven columns without the blank ones at either end and then open with a stamp, if and only if |
| Smoke.SmokeSevenColumns | crates/hawk/src/doctor.rs:379-392 | a line of seven columns passes if and only if stamp and bag are both there |
| Smoke.SmokeRefusesUnstamped | crates/hawk/src/doctor.rs:379-392 | every unstamped line of seven columns with a kind and a bag is refused, though the mirror accepts it |

## Left out

- Terminal rendering, key handling, `hawk_tui.py`, shell scripts, adapters and the small awk commands: input and output around external tools.
- tonic, tokio, zbus, TLS set-up, process spawning and mutex poisoning: foreign calls, whose outcomes are parameters.
- RFC 3339 and TOML decoding: library code, kept abstract.
- `security_scan_awk`, the style check, `contains_word` and `scan_declared_arg_usage`: their findings are an input to the doctor; the first two have no meaning to prove against, the last two only produce warnings.
- `parse_watch_spec`, `parse_unit_spec`, `parse_transform`, `map_systemd_level`, endpoint helpers and `systemd_focus.awk`: single-branch facts.
- The error frames of the systemd watcher: the same four steps as its snapshots.
- Counters are unbounded; the source's are `u64`.
- Spine.RunKeepsInv: watcher messages are one-line frames and ingest paths have no newline, because hawkd does not escape them.
- Pipeline.BridgeForwards: bytes that are not UTF-8 are not followed through awk; they cannot come back as a line.
- FailOnly.ScopeTestExact: numeric strings are the decimal ones of POSIX; the signed `inf` and `nan` that gawk also takes are not.
- ScopeCounts.CountsConserved: awk numbers are exact and `tolower` is ASCII lower-casing.
- Reader.ReadLoop: all read errors have the same text, which the mirror only counts.
- SystemdFrames.SnapshotTtlReachesMirror: an id with a tab is left to Watchers.JudgedByColumn, and so is a spec with one for gRPC frames.
