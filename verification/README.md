# Verification of the market-data half of a trading engine

A Dafny 4.11 model of the deterministic core of the repository and proofs about it. `dafny verify
dfyconfig.toml` checks everything.

- **Books** (`Ladder.dfy`, `Book.dfy`, `BookSync.dfy`, `VenueFeed.dfy`): bounded price ladders, the
  snapshot-plus-delta synchronisation on top of them, and why a live book shows the venue. The venue is
  a function from sequence numbers, sides and prices to quantities. A delta is honest if it sets what it
  mentions to the quantity at its end and what it omits did not change.
- **Rings** (`SlotRing.dfy`, `ByteRing.dfy`): the two lock-free rings as protocols of atomic steps
  (load, write, publish, release) of one producer and one consumer, with positions that wrap modulo
  the machine word beside unbounded ones that only the model keeps.
- **Verification, session and replay** (`MdBooks.dfy`, `MdVerification.dfy`, `VerificationRuns.dfy`,
  `VerificationLimit.dfy`, `VerificationEdge.dfy`, `MdSession.dfy`, `SessionWorker.dfy`,
  `SessionTurns.dfy`, `SessionReports.dfy`, `Replay.dfy`, `ReplayGap.dfy`, `ReplayFile.dfy`): the shadow
  book and what a mismatch means, the messages between a session and its snapshot worker, what is asked
  for when and what the handler hears, and the replay of a journal, up to journals of several sessions.
  A snapshot may be cut off: it is right up to an edge on each side. Decoding is a parameter: a fixed
  function.
- **Journal** (`JournalFormat.dfy`, `JournalFiles.dfy`, `JournalDamage.dfy`, `JournalProducer.dfy`,
  `JournalPath.dfy`): records and segments as bytes, torn tails, files with anything in them, rotation,
  drop accounting, and the whole path from a session through the ring to disk and back into the replay. The checksum is a parameter: what is
  proved holds for any function.
- **WebSocket framing** (`WsFrame.dfy`, `WsReader.dfy`, `WsClientFrame.dfy`): the incremental reader
  against a one-shot parse of sections 5.2 and 5.4 of RFC 6455, and the encoding of masked frames.
- **Arithmetic** (`FixedDec.dfy`, `FixedErrors.dfy`, `FixedText.dfy`, `FixedOrder.dfy`, `FixedUnits.dfy`,
  `FixedFast.dfy`, `Histogram.dfy`, `RateLimit.dfy`): decimals with their fast paths, percentiles with their error
  bound, and the token bucket.

`Common.dfy`, `Bytes.dfy` and `Remainders.dfy` hold shared types, fixed-width encodings and facts about
remainders and powers of two.

Each core is a set of functions on values, about which the theorems are proved, and, where the program
changes things in place, a class or a method with loops that is proved to compute those functions.

Where the code does not do what its documentation says, the model follows the code:

- `Ladder::load` reports a repeated price only if the first occurrence is still held when the second
  arrives. `Ladders.LoadKeepsBest` gives the exact condition, `Ladders.UnnoticedRepeat` an example.
- A mismatch is documented to mean that the book was wrong (`docs/runbooks/market-data.md:31`). With
  every message honest and every snapshot right to its full depth, so that no book is wrong, it is still
  reported: exactly when a comparison is due and the two books show different numbers of levels on a
  side, counted up to 100:
  `MdVerification.FullDepthMessageIff`, `MdVerification.FullDepthSnapshotIff`, and an input for books of
  every size in `VerificationLimit.ShortBookCriesWolf`.
- Levels beyond the edge of the verification snapshot are documented never to be compared, because it
  is deeper than the comparison (`binance/books.rs:22-24`, and decision record 0010). They are once
  the levels it lists have gone: `VerificationEdge.ComparesBeyondEdge`. Sessions load snapshots of 1,000
  levels into books of 5,000 (`binance/md.rs:104-106`). `MdVerification.MessageMismatchIff` says what a
  mismatch means then.
- The replay is documented to reproduce a live run exactly. A session that gives up on a verification
  does not journal that, whether the verification timed out (`binance/md.rs:612-618`) or a later fetch
  for it failed (`binance/md.rs:663-668`), and the replay carries on with it.
  `JournalReplay.ReplayExactIff` says exactly when that shows: when a message then completes it, with
  its snapshot loaded and its books different. `ReplayGap.ReplayCanDiffer` is such a session.
- The journal reader is documented to report any damage but a torn last record (`reader.rs:58-62`, and
  decision record 0009). A segment cut exactly between two records, the last one or any other, loses the
  records cut off without an error or a torn tail: `JournalFiles.ReadsCutJournal`,
  `JournalFiles.SilentLoss`.
- A `WsReader` with a `max_frame` of 0 can be left without room while it waits for the header of an
  empty frame: `WsReaders.StallsIff`, and `WsReaders.ElevenBytesStall` for an input.
- `Increment::to_units` is documented to overflow only when the result does not fit. For values of more
  than 18 decimals it also overflows when the rescaled increment does not fit: `FixedUnits.DownIsFloor`.
- The wait of `TokenBucket::try_take` counts from the latest time the bucket has seen, which is later
  than the time of the call when the clock has gone back: `RateLimits.RetryAfterWait`.

## Model

| member | source | states |
|---|---|---|
| `Ladders.ApplySets` | crates/bowst-book/src/ladder.rs:162-199 | A successful update leaves the ladder sorted worst to best, positive and within capacity; up to the new horizon the price holds the quantity given and every other price what it held; the horizon only improves. |
| `Ladders.ApplyAnswers` | crates/bowst-book/src/ladder.rs:162-199 | What every update answers, told by the quantity held at the price and the horizon; an error changes nothing; a level is forgotten only by a full ladder, which then stays full with its horizon at the worst level left. |
| `Ladders.LoadKeepsBest` | crates/bowst-book/src/ladder.rs:213-276 | A load succeeds exactly when every level is valid and no repeated price is one that the load notices; it then holds exactly the best `capacity` levels of the input, in any input order, with a horizon exactly when some were dropped; a failed load leaves the ladder empty. |
| `Ladders.LoadErrorIsFault` | crates/bowst-book/src/ladder.rs:213-276 | A load that fails names something that is wrong with the list: a price or quantity in it that is not allowed, or a price that it lists twice. |
| `Ladders.LoadSets` | crates/bowst-book/src/ladder.rs:213-276 | After a load, every price up to the horizon holds what the input lists for it. |
| `Ladders.UnnoticedRepeat` | crates/bowst-book/src/ladder.rs:244-253 | A concrete load that succeeds although a price is listed twice: the repeat is among levels already dropped. |
| `Ladders.StepAgrees` | crates/bowst-book/src/ladder.rs:162-220 | One load, update or clear keeps the ladder equal to the plain price-to-quantity map up to the horizon. |
| `Ladders.RunAgrees` | crates/bowst-book/src/ladder.rs:162-276 | After any run of loads, updates and clears the ladder is well formed and equals the plain map at every price at or better than its horizon. |
| `Ladders.Ladder.Search` | crates/bowst-book/src/ladder.rs:133-149 | The scan from the best end finds the level of a price, or the one place where it may be inserted. |
| `Ladders.Ladder.ApplyUpdate` | crates/bowst-book/src/ladder.rs:162-181 | The in-place update computes the update of the ladder value, with the same result and the same errors. |
| `Ladders.Ladder.InsertAt` | crates/bowst-book/src/ladder.rs:184-199 | The in-place insertion: when full, the worst level goes and the horizon moves to the new worst price. |
| `Ladders.Ladder.LoadLevels` | crates/bowst-book/src/ladder.rs:213-220 | The in-place load computes the load of the ladder value; an error leaves the ladder empty. |
| `Ladders.Ladder.LoadInner` | crates/bowst-book/src/ladder.rs:222-260 | The filling and inserting loop computes the load, or fails with the same error. |
| `Ladders.Ladder.LoadOne` | crates/bowst-book/src/ladder.rs:228-256 | One level of a load: appended while there is room, and inserted in order into the sorted ladder from then on. |
| `Ladders.Ladder.SortAndCheckLevels` | crates/bowst-book/src/ladder.rs:262-275 | Sorts the collected levels and reports the first repeated price. |
| `Ladders.Ladder.Clear` | crates/bowst-book/src/ladder.rs:202-205 | Forgets the levels and the horizon. |
| `Books.ApplyAllSets` | crates/bowst-book/src/book.rs:82-84 | A list of updates sets every price to the last quantity it mentions for it and leaves every other known price alone. |
| `Books.ApplyAllAnswers` | crates/bowst-book/src/book.rs:82-84 | A list of updates is applied exactly when every one has a positive price and no negative quantity; each side then is what its own updates make of it, one after the other; otherwise the error is that of the first update that is not valid. |
| `Books.CrossedIff` | crates/bowst-book/src/sync.rs:316-327 | A book is reported as crossed exactly when some bid is at least some ask, and then with its best prices. |
| `Books.LoadBookSets` | crates/bowst-book/src/book.rs:90-100 | Loading a book makes every known price of either side hold what its list says. |
| `Books.Book.ApplyUpdate` | crates/bowst-book/src/book.rs:82-84 | Updates the ladder of the side named and leaves the other one alone. |
| `Books.Book.LoadSides` | crates/bowst-book/src/book.rs:90-100 | Loads bids, then asks; a failure of either leaves the book as the specification says. |
| `BookSyncs.OnDeltaInv` | crates/bowst-book/src/sync.rs:221-245 | A delta keeps the run invariant: buffered ranges form an unbroken chain with increasing ends, within both limits; live means nothing buffered and an uncrossed book; not live means an empty book. |
| `BookSyncs.OnSnapshotInv` | crates/bowst-book/src/sync.rs:255-304 | A snapshot keeps the run invariant, whichever of its branches is taken. |
| `BookSyncs.SnapshotAnswers` | crates/bowst-book/src/sync.rs:255-304 | The exact outcome of every snapshot, without naming the replay: unchanged if it is older than a live book; invalid exactly when a list is not acceptable or an update of a buffered delta ending after it is not valid, and then with that fault; too old exactly at a gap; otherwise the book is what both lists and then those updates make of it, crossed exactly if a bid of it meets an ask, and else live at the later of the snapshot and the last buffered delta, with nothing pending and `Ok(true)`. |
| `BookSyncs.DeltaAnswers` | crates/bowst-book/src/sync.rs:221-245 | The exact outcome of every delta on a live book: stale, a gap (the delta then starts the buffer if it fits), invalid with the first update that is not valid, crossed with the best prices, or applied, the book then being what the updates make of it, live at the end of the delta. |
| `BookSyncs.ResetInv` | crates/bowst-book/src/sync.rs:212-214 | A reset keeps the run invariant. |
| `BookSyncs.BufferInv` | crates/bowst-book/src/sync.rs:343-373 | Buffering keeps the chain and the limits, starting over when a limit is passed or the chain breaks. |
| `BookSyncs.BufferAnswers` | crates/bowst-book/src/sync.rs:343-373 | While awaiting a snapshot: a delta that ends no later than the buffer is stale; any other is kept with what is buffered exactly if the whole may be kept, an unbroken chain within both limits; too many updates drop everything; a break or too many messages leave the delta alone, if it fits. |
| `BookSyncs.SnapshotTooOldIff` | crates/bowst-book/src/sync.rs:255-304 | A snapshot is found too old exactly when the first buffered range ends after it and does not continue it; this is found before anything is applied and leaves the whole state as it was. |
| `BookSyncs.ReplayAnswers` | crates/bowst-book/src/sync.rs:275-292 | Without a gap, replaying what is buffered applies exactly the updates of the deltas ending after the snapshot, in order, and reaches the later of both; or it stops at the first of these updates that is not valid, with its error. |
| `BookSyncs.LoadBookAnswers` | crates/bowst-book/src/sync.rs:262-274 | The lists of a snapshot load exactly if both are acceptable; an error is about one of them and leaves both sides empty. |
| `BookSyncs.ReplayChain` | crates/bowst-book/src/sync.rs:275-292 | Replaying a chain can only be stopped by a gap at its first range or an update that is refused, and otherwise reaches its end. |
| `BookSyncs.UnflattenAppend` | crates/bowst-book/src/sync.rs:343-373 | The flat buffer of updates with its spans holds exactly the buffered deltas: appending to both appends one delta. |
| `BookSyncs.BookSync.HandleDelta` | crates/bowst-book/src/sync.rs:221-245 | The in-place handler computes the delta step of the sync value: same state, same outcome, same error. |
| `BookSyncs.BookSync.HandleSnapshot` | crates/bowst-book/src/sync.rs:255-304 | The in-place handler computes the snapshot step of the sync value, whose outcome in every case is `BookSyncs.SnapshotAnswers`. |
| `BookSyncs.BookSync.BufferDelta` | crates/bowst-book/src/sync.rs:343-373 | Buffering into the flat buffer with its spans computes the buffering step. |
| `BookSyncs.BookSync.ReplayPending` | crates/bowst-book/src/sync.rs:275-292 | The replay loop over the flat buffer computes the replay of the buffered deltas, whose outcome in every case is `BookSyncs.ReplayAnswers`. |
| `BookSyncs.BookSync.ApplyUpdates` | crates/bowst-book/src/sync.rs:306-314 | Applies updates in order and stops at the first that is refused. |
| `BookSyncs.BookSync.CheckCrossed` | crates/bowst-book/src/sync.rs:316-327 | Resets the sync and reports the crossed prices exactly when the book is crossed. |
| `VenueFeed.DeltaTracks` | crates/bowst-book/src/sync.rs:221-245 | An honest delta that continues the book brings every known exact price to the venue quantity at its end. |
| `VenueFeed.FeedStepKeeps` | crates/bowst-book/src/sync.rs:221-304 | Every honest delta, snapshot or reset keeps the book tracking the venue. |
| `VenueFeed.LiveBookShowsVenue` | crates/bowst-book/src/sync.rs:221-304 | Over every run of honest deltas (lost, repeated or overlapping), honest snapshots and resets: whenever the sync is live at `last`, its book is uncrossed and every price exact in the loaded snapshot and up to the horizon holds exactly the venue quantity at `last`. |
| `SlotRing.RunInv` | crates/bowst-core/src/ring.rs:100-211 | In every interleaving of pushes and pops, step by step and with wrapping positions, the slot numbers say which elements are published and the slots hold them. |
| `SlotRing.PoppedIsPrefix` | crates/bowst-core/src/ring.rs:144-211 | What was popped is a prefix of what was pushed, at most `capacity` elements are outstanding, and a slot about to be read holds the next element. |
| `SlotRing.NeverOverwrites` | crates/bowst-core/src/ring.rs:144-162 | The slot being written is never that of an element not yet popped. |
| `SlotRing.FullIsExact` | crates/bowst-core/src/ring.rs:144-162 | `push` gives up exactly when `capacity` elements are outstanding at the moment it loads `head`; what it answers in every other case is `SlotRing.PushAnswers`. |
| `SlotRing.PushAnswers` | crates/bowst-core/src/ring.rs:144-162 | In every interleaving: what was pushed is exactly what was offered and answered `Sent`, in order; a push is answered `Full`, with its own item, exactly if the ring is full when it returns; and it returns by its fourth step. |
| `SlotRing.EmptyIsExact` | crates/bowst-core/src/ring.rs:196-211 | `pop` finds nothing exactly when everything pushed was popped: no stale or initial number looks published, even across wrapping. |
| `SlotRing.PopAnswers` | crates/bowst-core/src/ring.rs:196-211 | In every interleaving: what was popped is exactly what the pops handed out, in order; a pop hands out the oldest element there is when it returns, or nothing if there is none; and it returns by its third step. |
| `ByteRing.RunInv` | crates/bowst-core/src/bytes_ring.rs:123-275 | In every interleaving of a writer and a reader, the readable region is laid out as the records and wrap markers outstanding, and the writer and reader agree with it at every step. |
| `ByteRing.ReadIsPrefixOfWritten` | crates/bowst-core/src/bytes_ring.rs:169-275 | The records read are a prefix of the records written, byte for byte, and no access is ever out of bounds. |
| `ByteRing.NeverWritesReadable` | crates/bowst-core/src/bytes_ring.rs:169-212 | No step of the writer changes a readable byte. |
| `ByteRing.ReadsInTwoRounds` | crates/bowst-core/src/bytes_ring.rs:248-275 | A wrap marker is always followed by a record at index 0, so the loop of `read_with` goes round at most twice. |
| `ByteRing.FullIsExact` | crates/bowst-core/src/bytes_ring.rs:169-212 | `write_with` gives up exactly when the free space, at the moment it loads `head`, is short of what the record needs; an empty ring takes every record of at most `max_record` bytes. |
| `ByteRing.WriteAnswers` | crates/bowst-core/src/bytes_ring.rs:169-212 | In every interleaving: what was written is exactly what was offered and answered `Written`, in order; a write is answered `TooLarge` exactly for a record over `max_record`, else `Written` exactly if some free stretch takes the record in one piece when it returns, and else `RingFull`; and it returns by its sixth step. |
| `ByteRing.RoomIff` | crates/bowst-core/src/bytes_ring.rs:177-198 | The test for room, skip included, succeeds exactly if some free stretch takes the record without reaching past the end of the buffer. |
| `ByteRing.EmptyIsExact` | crates/bowst-core/src/bytes_ring.rs:248-275 | `read_with` finds nothing exactly when everything written was read. |
| `ByteRing.ReadAnswers` | crates/bowst-core/src/bytes_ring.rs:248-275 | In every interleaving: what was consumed is exactly what the reads handed out, in order; a read hands out the oldest record there is when it returns, or nothing if there is none; and it returns by its seventh step. |
| `ByteRing.Placement` | crates/bowst-core/src/bytes_ring.rs:169-198 | Wherever the write position is, a record of legal size fits whole where it is put and needs less than the whole ring. |
| `MdBooks.CompareIff` | crates/bowst-venue/src/binance/books.rs:524-576 | Two books compare equal exactly when the best 100 levels of both sides agree, missing levels included. |
| `MdBooks.CompareTells` | crates/bowst-venue/src/binance/books.rs:524-576 | A mismatch names the first level at which the books differ, bids first, with what either book has there, and the update they were compared at. |
| `MdBooks.SettleVerdict` | crates/bowst-venue/src/binance/books.rs:479-512 | A comparison happens only when live and shadow are at the same update; it always ends the verification; it passes exactly when the top levels agree; a mismatch leaves the live book down. |
| `MdBooks.ApplyMessageInv` | crates/bowst-venue/src/binance/books.rs:240-294 | A message keeps the run invariant of every sync and of the shadow. |
| `MdBooks.MessageHeard` | crates/bowst-venue/src/binance/books.rs:240-318 | Every message: one that cannot be attributed changes nothing; any other touches the sync of its instrument alone, and the handler hears exactly what became of it: one book that moved on, the current book of that instrument with the time of the message; or that it went down, and why; or nothing. |
| `MdBooks.MessageVerifies` | crates/bowst-venue/src/binance/books.rs:240-294 | A message feeds the shadow of its own instrument only, and ends a verification exactly when the live sync refuses the delta or the delta brings live and loaded shadow to the same update. |
| `MdBooks.SnapshotHeard` | crates/bowst-venue/src/binance/books.rs:318-375 | All that is heard of a snapshot: live and the current book if it was used, nothing if it was of no use or is too old, and otherwise that it was refused, and why. |
| `MdBooks.UndecodableHeard` | crates/bowst-venue/src/binance/books.rs:340-475 | Bytes that are no snapshot change no book; they are reported, and end a verification that waits for them. |
| `MdBooks.TakeVerificationSnapshotInv` | crates/bowst-venue/src/binance/books.rs:402-475 | A verification snapshot keeps the run invariants. |
| `MdBooks.VerificationHeard` | crates/bowst-venue/src/binance/books.rs:402-512 | All that is heard of a verification snapshot: the first difference of the two books at the update of the live one, which goes down; or nothing, and then no book changes. |
| `MdBooks.VerificationAnswers` | crates/bowst-venue/src/binance/books.rs:402-475 | What a verification snapshot is answered: `NotRunning` without a verification waiting for one; over if the shadow refuses it; compared at once exactly if that brings both books to the same update; and else waited for. |
| `MdBooks.MarketBooks.ApplyOne` | crates/bowst-venue/src/binance/books.rs:240-294 | The in-place handler computes the message step: attribution, live sync, shadow sync, comparison, in that order. |
| `MdBooks.MarketBooks.SettleVerification` | crates/bowst-venue/src/binance/books.rs:479-512 | The in-place comparison computes the settling step. |
| `MdBooks.MarketBooks.CompareBooks` | crates/bowst-venue/src/binance/books.rs:524-576 | The loop over the top levels finds the first difference, bids first, or none. |
| `MdBooks.MarketBooks.LoadRawSnapshot` | crates/bowst-venue/src/binance/books.rs:340-375 | The in-place handler computes the snapshot step, refusing unknown instruments and undecodable bytes. |
| `MdBooks.MarketBooks.LoadRawVerification` | crates/bowst-venue/src/binance/books.rs:423-475 | The in-place handler computes the verification snapshot step. |
| `MdBooks.MarketBooks.Start` | crates/bowst-venue/src/binance/books.rs:382-390 | Starts a verification of a live instrument, abandoning any other. |
| `MdBooks.MarketBooks.ResetBooks` | crates/bowst-venue/src/binance/books.rs:515-520 | Resets every sync and ends the verification. |
| `MdVerification.MirrorsAgree` | crates/bowst-venue/src/binance/books.rs:524-576 | Two books that are right about one venue at one update, each up to the edge of its snapshot and its horizon, have the same best levels, as long as the levels compared are within the edges and each book shows a level at every rank at which the other has one, or is sure that there is none. |
| `MdVerification.SideIff` | crates/bowst-venue/src/binance/books.rs:524-576 | So the best 100 levels of two such sides, all within the edges, agree exactly when both hold equally many levels, counted up to 100; with different numbers they never agree. |
| `MdVerification.RunIsHonest` | crates/bowst-venue/src/binance/books.rs:240-520 | Over every run of honest messages, of snapshots each right up to some edge on either side, of verifications and of resets, every live book and the shadow show the venue, up to the edge of the snapshot they were loaded from and up to the horizon. |
| `MdVerification.MessageMismatchIff` | crates/bowst-venue/src/binance/books.rs:240-294 | After every honest run, with snapshots cut off anywhere, a message is reported as a mismatch whenever it makes a comparison due and the two books show different numbers of levels on a side, counted up to 100; only then, as long as the levels compared are within the edges; and never, if each book has no edge and no horizon on a side or has 100 levels within its edge there. |
| `MdVerification.SnapshotMismatchIff` | crates/bowst-venue/src/binance/books.rs:402-475 | The same for a verification snapshot that is compared as soon as it is loaded. |
| `MdVerification.FullDepthMessageIff` | crates/bowst-venue/src/binance/books.rs:240-294 | After every honest run with snapshots of full depth, a message is reported as a mismatch if and only if it makes a comparison due and the two books show different numbers of levels on a side, counted up to 100; and then one of them has a horizon and fewer than 100 levels on a side. |
| `MdVerification.FullDepthSnapshotIff` | crates/bowst-venue/src/binance/books.rs:402-475 | The same for a verification snapshot of full depth. |
| `VerificationLimit.ShortBookCriesWolf` | crates/bowst-venue/src/binance/books.rs:479-512 | For books of every size, an honest run from new books, with snapshots of full depth, that ends in a mismatch: the book dropped the worst level of the venue and then lost all it kept. |
| `VerificationEdge.ComparesBeyondEdge` | crates/bowst-venue/src/binance/books.rs:22-25 | For every snapshot limit and all books with room for as many levels, an honest run from new books in which no book drops a level, a level beyond the edge of the verification snapshot is compared, and a mismatch is reported: the levels of the snapshot have gone by the time of the comparison. |
| `MdVerification.NewBooksAreHonest` | crates/bowst-venue/src/binance/books.rs:148-171 | New books meet what the runs above start from, with no edges. |
| `SessionWorker.StepInv` | crates/bowst-venue/src/binance/md.rs:405-695 | Every turn of session or worker keeps the bookkeeping: stamps, request states and outstanding requests. |
| `SessionWorker.OneRequestEach` | crates/bowst-venue/src/binance/md.rs:476-599 | In every interleaving, each instrument has at most one outstanding sync request of the current connection, exactly when its state is `Requested`, and is then not live; and the result at the head of the queue is used exactly when it was asked for on this connection. |
| `SessionWorker.GenerationTells` | crates/bowst-venue/src/binance/md.rs:504-518 | Comparing wrapping generations tells whether a job was asked for on the current connection. |
| `MdSessions.BooksKept` | crates/bowst-venue/src/binance/md.rs:405-695 | Every turn of the session keeps the run invariants of its books. |
| `MdSessions.MdSession.TakeDown` | crates/bowst-venue/src/binance/md.rs:566-576 | Journals a reset, starts a new generation, resets all books and forgets every request. |
| `SessionTurns.ReceiveHears` | crates/bowst-venue/src/binance/md.rs:422-435 | A message that can be attributed is journaled, touches the book of its instrument alone and is heard as exactly what became of that book, a book going down being asked for anew; one that cannot takes every book down and starts a new connection. |
| `SessionTurns.ReconnectAnswers` | crates/bowst-venue/src/binance/md.rs:566-576 | After a disconnect nothing is live, buffered or being verified, and the next round of requests, whenever it comes, asks for every instrument once, in order, on the new connection. |
| `MdSessions.MdSession.ReceiveMessage` | crates/bowst-venue/src/binance/md.rs:422-435 | Journals the message before applying it; a message that cannot be attributed takes everything down; what is heard of any other is `SessionTurns.ReceiveHears`. |
| `SessionReports.ReportsShowVenue` | crates/bowst-venue/src/binance/md.rs:405-599 | Over every run of a session with honest messages, in every turn: each book the handler hears is the current book of a live instrument, and shows the venue at its last update, at every price that a snapshot journaled for it had right and up to its horizon. |
| `SessionTurns.RequestAnswers` | crates/bowst-venue/src/binance/md.rs:476-502 | A round of requests adds, in order, exactly one sync request of the current connection for each instrument that is not live and has nothing asked or a retry time that has come, marks these as requested, and changes nothing else; with the worker gone it does nothing. |
| `SessionTurns.FailedFetchIsRetried` | crates/bowst-venue/src/binance/md.rs:476-599 | After every failed fetch and on the same connection, the next request for its instrument is made by the first round of requests once the longer of the advised and the configured wait has passed, and by none before. |
| `SessionTurns.AsksAtDeadline` | crates/bowst-venue/src/binance/md.rs:476-502 | The same for an instrument waiting for a deadline for any reason. |
| `SessionTurns.WorkerAnswers` | crates/bowst-venue/src/binance/md.rs:803-901 | An idle worker takes the oldest request; a fetch whose bytes decode as a snapshot is reported as that snapshot, any other as a failure, with the advised wait passed on. |
| `MdSessions.MdSession.RequestSnapshots` | crates/bowst-venue/src/binance/md.rs:476-502 | The loop computes the round of requests, of which `SessionTurns.RequestAnswers` says exactly which are made. |
| `MdSessions.MdSession.CollectResult` | crates/bowst-venue/src/binance/md.rs:504-518 | Takes one result and drops it if its generation is not the current one. |
| `SessionTurns.CollectHears` | crates/bowst-venue/src/binance/md.rs:504-563 | A fetched snapshot is journaled and loaded into the book of its instrument alone; what is heard of it, whether that book is live then, and when the next one may be asked for, follow from what the sync answers. |
| `SessionTurns.CollectFails` | crates/bowst-venue/src/binance/md.rs:520-535 | A failed fetch only leads to a status record and a wait, the longer of the advised and the configured one. |
| `SessionTurns.CollectDrops` | crates/bowst-venue/src/binance/md.rs:504-518 | A result of an earlier connection is dropped without a trace. |
| `SessionTurns.CollectVerifies` | crates/bowst-venue/src/binance/md.rs:656-695 | A result for a verification is dropped unless that verification is awaited; a failed fetch ends it without a record; a snapshot is journaled, and an instrument that goes down on it is asked for anew. |
| `MdSessions.MdSession.UseSnapshot` | crates/bowst-venue/src/binance/md.rs:520-563 | Journals and loads a fetched snapshot, or schedules a retry. |
| `MdSessions.MdSession.UseVerification` | crates/bowst-venue/src/binance/md.rs:656-695 | Journals and loads a verification snapshot that is still wanted; a failed fetch abandons the verification without a record. |
| `MdSessions.MdSession.ScheduleVerification` | crates/bowst-venue/src/binance/md.rs:607-654 | Abandons a verification that took too long, without a record, and starts the next one in turn when due. |
| `SessionTurns.ScheduleAnswers` | crates/bowst-venue/src/binance/md.rs:607-654 | A verification is given up exactly when its time is over; when none is under way and the next one is due, it is begun for the first live instrument in turn, the one after it being next in turn. |
| `SessionTurns.VerificationAttended` | crates/bowst-venue/src/binance/md.rs:578-695 | In every run, the session waits for a verification only while the books run it, and books run one that the session does not wait for only with its snapshot loaded. |
| `JournalReplay.ReplayExactIff` | crates/bowst-venue/src/binance/replay.rs:154-231 | For every session and worker interleaving: replaying the journal makes the handler hear exactly what it heard live, book by book and in order, if and only if no message of the run completes a verification that the session had given up on after its snapshot was loaded and whose two books differ; then the books at the end are the same, too, and otherwise the reports part at some position. |
| `JournalReplay.AbandonedVerdict` | crates/bowst-venue/src/binance/replay.rs:178-190 | For every message and every state the live books and the replayed ones can be in together: same outcome, same report and still in step, unless the message completes such a leftover verification; then the session reports the book and the replay takes it down. |
| `JournalReplay.StepInStep` | crates/bowst-venue/src/binance/md.rs:405-695 | Every turn of the session except such a message keeps the replay of its journal in step with it. |
| `JournalReplay.RunVerdict` | crates/bowst-venue/src/binance/md.rs:405-695 | Every run is in step with the replay of its journal, or its reports have parted for good. |
| `JournalReplay.ReplayReproducesSession` | crates/bowst-venue/src/binance/replay.rs:154-231 | In particular a run replays exactly if it never gives up on a verification whose snapshot was loaded, by timeout or by a failed later fetch. |
| `ReplayGap.ReplayCanDiffer` | crates/bowst-venue/src/binance/md.rs:612-618 | A concrete session, from new books through snapshot requests and fetches, whose journal replays to something it did not report: a verification timed out after its snapshot was loaded. |
| `ReplayFiles.SessionsReplayIff` | crates/bowst-venue/src/binance/replay.rs:154-231 | The records of any number of sessions, one after the other, replay without an error, with nothing counted as lost, and to exactly what all sessions reported if and only if every one of them is exact. |
| `ReplayFiles.ReplaysEverySession` | crates/bowst-venue/src/binance/replay.rs:154-231 | The records of any number of sessions replay as the sessions do one by one. |
| `ReplayFiles.SessionsExactIff` | crates/bowst-venue/src/binance/replay.rs:154-231 | Replayed one by one, the sessions sound as they did live exactly when each of them is exact. |
| `ReplayFiles.ReplayFailsIff` | crates/bowst-venue/src/binance/replay.rs:154-231 | A replay fails exactly on a journal with something wrong with it, with the error of the first such thing: a description that does not open, a market-data record before any session, or one too short for its instrument. What messages and snapshots say never stops it. |
| `ReplayFiles.TallyCounts` | crates/bowst-venue/src/binance/replay.rs:131-152 | Each counter of the report is the number of records of its kind, cut off at 64 bits. |
| `ReplayFiles.ReplayReader` | crates/bowst-venue/src/binance/replay.rs:154-231 | The loop over a journal reader, with the books of one session at a time, computes the fold over the records read: same reports, same counters and torn tail, and whichever error comes first. |
| `ReplayFiles.TakeRecord` | crates/bowst-venue/src/binance/replay.rs:178-215 | One market-data record handed to the books in progress, or the error. |
| `JournalPath.JournaledSessionsReplay` | crates/bowst-journal/src/journal.rs:139-437 | From live sessions to disk and back: the records of any number of sessions are appended to the ring with gap accounting, drained from it in any interleaving, written with checksums over rotated segments and read back. Reading ends with no error and no torn tail; what the replay counts as lost and what was still to be reported add up to what was dropped; and if nothing was dropped the replay reports what the sessions did if and only if every session is exact. |
| `JournalPath.TakenReadsBack` | crates/bowst-journal/src/journal.rs:347-418 | Whatever the writer thread has taken from the ring so far, in any interleaving with the producer, reads back from disk as the first of the records put in. |
| `JournalPath.RingAccounts` | crates/bowst-journal/src/journal.rs:154-210 | The gap records in the ring and the pending gap account for every record dropped; with nothing dropped the ring was given exactly the records appended. |
| `ReplayFiles.EncodeRoundTrip` | crates/bowst-venue/src/binance/md.rs:348-358 | Every market-data record reads back as itself from the record journaled for it; status records are skipped. |
| `ReplayFiles.HeardAppends` | crates/bowst-venue/src/binance/replay.rs:154-231 | What was heard before makes no difference to what a record makes heard next. |
| `JournalReplay.ReplayJournal` | crates/bowst-venue/src/binance/replay.rs:154-231 | The replay loop, in place, computes the fold over the records. |
| `JournalReplay.ReplayOneRecord` | crates/bowst-venue/src/binance/replay.rs:160-228 | One record, by kind; unknown kinds change nothing. |
| `JournalFormat.FileHeaderRoundTrip` | crates/bowst-journal/src/format.rs:133-164 | A file header decodes to its segment number, whatever follows it, and holds the time it was created at. |
| `JournalFormat.OpensIff` | crates/bowst-journal/src/format.rs:156-164 | A file is opened exactly when it is long enough and begins with the magic bytes, the version and a segment number, which is the answer. |
| `JournalFormat.DecodesParts` | crates/bowst-journal/src/format.rs:242-273 | What any 32 header bytes and what follows them decode to, told by the length and the two checksums they hold: a wrong header checksum, an oversized length, a record that is not all there and a wrong record checksum are each found, in this order, and only a record with both checksums right is given. |
| `JournalFormat.GivesOnlySealed` | crates/bowst-journal/src/format.rs:213-273 | Whatever the bytes, a record is given exactly when they begin with that record, sealed, of legal size. |
| `JournalFormat.DecodesWhole` | crates/bowst-journal/src/format.rs:168-273 | A sealed record of legal size decodes to its header and length, whatever follows it and whatever the checksum function. |
| `JournalFormat.DecodesCut` | crates/bowst-journal/src/format.rs:242-273 | Every proper prefix of a sealed record decodes as incomplete. |
| `JournalFormat.RefusesOversized` | crates/bowst-journal/src/format.rs:242-273 | A header whose own checksum is right but whose length is over the limit is refused as such. |
| `JournalFormat.SealedShape` | crates/bowst-journal/src/format.rs:213-222 | A sealed record is its header fields, the record checksum, the header checksum and the payload. |
| `JournalFiles.SealInPlace` | crates/bowst-journal/src/format.rs:213-222 | Sealing in place writes the two checksums into their fields and nothing else. |
| `JournalFiles.ReadsBackSegments` | crates/bowst-journal/src/reader.rs:121-176 | Any segments of legal records, possibly with the start of one more record at the end of each, read back as their records, up to the first cut: torn at the end of the last segment, `Truncated` anywhere else. |
| `JournalFiles.RoundTrip` | crates/bowst-journal/src/reader.rs:121-176 | Uncut segments, the records split over them in any way, read back as exactly the records, with no torn tail. |
| `JournalFiles.ReadsCutJournal` | crates/bowst-journal/src/reader.rs:121-176 | Cutting one segment anywhere, in every case: cut inside its file header, it yields the records of the segments before and a `BadFileHeader` error, in the last segment too; cut inside a record, exactly the records complete before the cut, with a torn tail in the last segment and a `Truncated` error at the right offset in an earlier one; cut between two records, reading goes on with the next segment and ends normally, the records cut off missing, in the last segment too. So damage to an earlier segment is reported exactly when the cut is inside a record or the file header. |
| `JournalFiles.SilentLoss` | crates/bowst-journal/src/reader.rs:58-62 | Two segments of one record each: with the first cut right after its file header its record is missing and no error is reported. |
| `JournalDamage.ReadsAnything` | crates/bowst-journal/src/reader.rs:121-176 | Whatever is in the files: a reader gets the records of all files up to the first that is not whole, and of that one the records up to the first byte that begins no sealed record. It ends there with an error for a bad file header, checksum or length, with `Truncated` for a record that is not all there, unless that is in the last file, where it is a torn tail; and with no error when everything was read. |
| `JournalDamage.Parses` | crates/bowst-journal/src/reader.rs:139-176 | Every byte string is sealed records and then bytes that begin none. |
| `JournalFiles.SinkFiles` | crates/bowst-journal/src/journal.rs:384-437 | The files the sink writes are whole segments, numbered in order, that hold the records in order; every closed one has reached the size limit and none passes it by more than its last record. |
| `JournalFiles.JournalRoundTrip` | crates/bowst-journal/src/journal.rs:384-437 | What the sink writes, with its rotation, reads back as exactly the records written, with no torn tail. |
| `JournalFiles.JournalReader.Next` | crates/bowst-journal/src/reader.rs:139-176 | The reader, in place, computes the next record: skipping to the next file at the end of one, torn at the end of the last. |
| `JournalFiles.JournalReader.Take` | crates/bowst-journal/src/reader.rs:150-176 | Decodes the record at the position, in place, and moves past it, or says what is wrong. |
| `JournalFiles.JournalReader.Load` | crates/bowst-journal/src/reader.rs:121-133 | Loads the next file, refusing one without a sound header. |
| `JournalFiles.JournalReader.ReadEverything` | crates/bowst-journal/src/reader.rs:139-176 | Reading until the end or the first error computes the reading of the files. |
| `JournalFiles.Sink.Write` | crates/bowst-journal/src/journal.rs:384-437 | Writes a sealed record to the current segment, rotating first when it has reached the limit. |
| `JournalProducers.DropsAccountedFor` | crates/bowst-journal/src/journal.rs:154-210 | For every sequence of appends and every ring behaviour: the records written, each gap record expanded to as many unknowns, followed by the pending gap, line up position by position with the appends; and the drop counter is the number of unknowns. |
| `JournalProducers.AcceptedIff` | crates/bowst-journal/src/journal.rs:154-184 | In every run, a record gets through exactly when its payload is within the limit of the format, the whole record within what the ring takes at once, the ring has room for it, and, if the record before it was dropped, for a gap record as well. |
| `JournalProducers.GapExpands` | crates/bowst-journal/src/journal.rs:186-204 | A gap record written for `n` drops reads back as `n` unknowns. |
| `JournalProducers.JournalProducer.AppendParts` | crates/bowst-journal/src/journal.rs:154-184 | The in-place append computes the append step: the pending gap first, then the record, else a drop. |
| `JournalProducers.JournalProducer.WriteGap` | crates/bowst-journal/src/journal.rs:186-204 | Writes the pending gap if the ring has room, and only then forgets it. |
| `WsFrames.HeaderStable` | crates/bowst-venue/src/ws/frame.rs:76-129 | Once enough bytes are there for a verdict on a header, more bytes never change it. |
| `WsFrames.HeaderRoundTrip` | crates/bowst-venue/src/ws/frame.rs:76-129 | The header of every frame section 5.2 of RFC 6455 allows, in its shortest form, parses back; it is refused only when the payload is over the limit. |
| `WsFrames.ParsesOnlyEncoded` | crates/bowst-venue/src/ws/frame.rs:76-129 | A header that is accepted is the shortest encoding of a frame that section 5.2 of RFC 6455 allows, within the limit. |
| `WsFrames.RefusalIsTrue` | crates/bowst-venue/src/ws/frame.rs:76-129 | What a header is refused for is true of it. |
| `WsFrames.DeclaresLength` | crates/bowst-venue/src/ws/frame.rs:90-112 | The three forms of the length field decode to the length they encode. |
| `WsReaders.DrainSplit` | crates/bowst-venue/src/ws/reader.rs:118-139 | Draining what has arrived and then the rest is draining everything at once. |
| `WsReaders.DeliveriesAgree` | crates/bowst-venue/src/ws/reader.rs:118-220 | For every byte stream and every split into deliveries with a drain after each, the events and the first error are those of a one-shot parse. |
| `WsReaders.DrainsEncoded` | crates/bowst-venue/src/ws/reader.rs:118-169 | Frames laid end to end are read as exactly those frames. |
| `WsReaders.AssemblesMessage` | crates/bowst-venue/src/ws/reader.rs:142-220 | However a text or binary message is cut into fragments, and whatever pings, pongs and close frames come in between, it is delivered once, whole, after them, and each of them where it comes, a close frame with its code in network byte order and its reason (section 5.4 of RFC 6455); only a fragmented message is held to the message limit. |
| `WsReaders.ReadsStreams` | crates/bowst-venue/src/ws/reader.rs:118-220 | On wire bytes, after any whole messages, control frames and an open message: exactly those events are found, and the next frame is an error exactly when it is a close frame of one byte, a continuation with nothing open, a data frame inside a message, or a fragment that takes a message over the limit, each with its own error. |
| `WsReaders.StallsIff` | crates/bowst-venue/src/ws/reader.rs:89-100 | A reader can be brought, by some deliveries with a drain after each, to wait for bytes it has no room for, exactly when it allows only empty frames. |
| `WsReaders.FillerStalls` | crates/bowst-venue/src/ws/reader.rs:89-100 | For every buffer size, the bytes that bring a reader of empty frames into that state. |
| `WsReaders.ElevenBytesStall` | crates/bowst-venue/src/ws/reader.rs:89-100 | Five empty pings and a byte of a sixth, in a buffer of eleven bytes, do. |
| `WsReaders.DrainByEvents` | crates/bowst-venue/src/ws/reader.rs:118-139 | Draining is taking the next event again and again. |
| `WsReaders.NewReader` | crates/bowst-venue/src/ws/reader.rs:65-77 | A reader is refused exactly when its buffer could not hold a frame of the largest size. |
| `WsReaders.WsReader.Spare` | crates/bowst-venue/src/ws/reader.rs:89-100 | Compaction keeps the unconsumed bytes; while a frame is waiting for bytes there is always room for some. |
| `WsReaders.WsReader.TakeOne` | crates/bowst-venue/src/ws/reader.rs:118-133 | Takes one frame off the front of the buffer as the one-shot parse does. |
| `WsReaders.WsReader.NextEvent` | crates/bowst-venue/src/ws/reader.rs:118-139 | The loop finds the next event of the bytes buffered, skipping fragments that complete none. |
| `WsReaders.WsReader.HandleFrame` | crates/bowst-venue/src/ws/reader.rs:142-220 | In place, computes what one frame does to the message in progress and which event or error it gives; `WsReaders.ReadsStreams` and `WsReaders.AssemblesMessage` say what these are. |
| `WsReaders.WsReader.DrainEvents` | crates/bowst-venue/src/ws/reader.rs:118-139 | Taking events until more bytes are needed gives the drain of the bytes buffered. |
| `WsReaders.WsReader.ReadStream` | crates/bowst-venue/src/ws/client.rs:131-163 | Receiving in whatever portions the socket gives, with a drain after each, never runs out of room, ends, and gives the events and first error of the whole stream read at once. |
| `WsClientFrames.MaskedTwice` | crates/bowst-venue/src/ws/frame.rs:160-164 | Masking twice with the same key gives the payload back. |
| `WsClientFrames.ClientRoundTrip` | crates/bowst-venue/src/ws/frame.rs:137-165 | A server that reads the header and unmasks the payload gets back exactly the frame sent, whatever the mask. |
| `WsClientFrames.RefusesUnreadable` | crates/bowst-venue/src/ws/frame.rs:137-165 | The control frames that the encoder refuses are exactly those that no server would read. |
| `WsClientFrames.EncodeClientFrame` | crates/bowst-venue/src/ws/frame.rs:137-194 | Writes exactly the frame and leaves the rest of the buffer alone, or refuses an overlong control frame or, exactly when it does not fit, the buffer; 14 bytes more than the payload always suffice. |
| `WsClientFrames.PutMasked` | crates/bowst-venue/src/ws/frame.rs:160-164 | The masking loop writes the masked payload. |
| `FixedDecs.ParsesText` | crates/bowst-core/src/fixed.rs:188-242 | Every text of an optional sign, digits and optional decimals parses to its number at its scale, or fails with whichever of the two limits it breaks first: overflow of the digits seen, or a 19th decimal. |
| `FixedDecs.OnlyTextsParse` | crates/bowst-core/src/fixed.rs:188-242 | Nothing else parses. |
| `FixedErrors.ParseAnswers` | crates/bowst-core/src/fixed.rs:188-242 | What every byte string is answered, with errors and positions: it splits into the longest beginning of a number and a rest; a limit that the digits break comes first, then the first byte that does not go on, then that there are no digits, and last a point with nothing after it. |
| `FixedErrors.EveryTextSplits` | crates/bowst-core/src/fixed.rs:188-242 | Every byte string splits like that. |
| `FixedDecs.ParseBytes` | crates/bowst-core/src/fixed.rs:188-242 | The loop with its 64-bit accumulator that widens to 128 bits computes the parse with one checked 128-bit accumulator, errors and their positions included. |
| `FixedText.TextRoundTrip` | crates/bowst-core/src/fixed.rs:276-301 | Parsing a printed decimal gives back its mantissa and scale exactly when the scale is at most 18 and the mantissa is not the least 128-bit integer, which overflows. |
| `FixedText.LeastMantissaIsLost` | crates/bowst-core/src/fixed.rs:276-301 | The mantissa that prints but does not parse back. |
| `FixedText.TextIsCanonical` | crates/bowst-core/src/fixed.rs:276-301 | The text is the canonical one: a minus sign for a negative mantissa only, no superfluous zero in front, a point only if there are decimals, and exactly as many of these as the scale says. |
| `FixedText.TextFits` | crates/bowst-core/src/fixed.rs:25-25 | Every decimal of a legal scale prints in at most 41 bytes, so the 42 of `MAX_TEXT_LEN` suffice. |
| `FixedText.ReverseDigits` | crates/bowst-core/src/fixed.rs:277-287 | The digit loop produces the digits of the mantissa, last first, with zeros up to the scale. |
| `FixedText.WriteTo` | crates/bowst-core/src/fixed.rs:276-301 | Writes exactly the text and leaves the rest of the buffer alone, or reports, exactly when the text does not fit, that the buffer is too small. |
| `FixedOrder.CompareIsNumeric` | crates/bowst-core/src/fixed.rs:314-330 | Comparison is the order of the numbers across all scales. |
| `FixedOrder.NeverSaturates` | crates/bowst-core/src/fixed.rs:321-328 | Rescaling the fractions to the larger scale never overflows. |
| `FixedUnits.NewIncrement` | crates/bowst-core/src/fixed.rs:396-409 | Builds the increment of the same value without trailing zeros, or names what is wrong. |
| `FixedUnits.SameValueSameIncrement` | crates/bowst-core/src/fixed.rs:381-389 | Normalized increments are equal exactly when their values are. |
| `FixedUnits.NarrowIsWide` | crates/bowst-core/src/fixed.rs:436-471 | The 64-bit path of `to_units` gives what the 128-bit path gives, value and error, wherever it is taken. |
| `FixedUnits.DownIsFloor` | crates/bowst-core/src/fixed.rs:436-457 | Rounding down gives the floor of the rational quotient when it fits in 64 bits and `Overflow` otherwise, exactly when the increment rescaled to the decimals of the value fits in 128 bits; otherwise `Overflow` although the floor fits. |
| `FixedUnits.UpIsCeiling` | crates/bowst-core/src/fixed.rs:436-457 | Likewise rounding up and the ceiling. |
| `FixedUnits.ShortScalesFit` | crates/bowst-core/src/fixed.rs:436-457 | The condition holds for every value of at most 18 decimals. |
| `FixedUnits.OverflowThoughZeroFits` | crates/bowst-core/src/fixed.rs:450-450 | A concrete value, zero with 36 decimals, that is reported as an overflow. |
| `FixedUnits.FloorAndCeilingExist` | crates/bowst-core/src/fixed.rs:436-457 | Every value has a floor and a ceiling in steps of every increment. |
| `FixedUnits.ExactMeansExact` | crates/bowst-core/src/fixed.rs:436-457 | Exact conversion succeeds only with the exact number of steps, and reports `NotMultiple` only for values that are no whole number of steps. |
| `FixedUnits.ExactOfMultiple` | crates/bowst-core/src/fixed.rs:436-457 | A value of exactly `u` steps: exact conversion gives `u` when it fits in 64 bits and `Overflow` when it does not, exactly when the rescaled increment fits in 128 bits; otherwise `Overflow` although `u` fits. |
| `FixedUnits.ExactOfOther` | crates/bowst-core/src/fixed.rs:436-457 | A value that is no whole number of steps: `NotMultiple` when the value and the increment, rescaled to common decimals, both fit in 128 bits, and `Overflow` when either does not. |
| `FixedUnits.ExactValue` | crates/bowst-core/src/fixed.rs:436-457 | A value of exactly `u` steps converts to `u` under every rounding. |
| `FixedUnits.FromUnitsRoundTrip` | crates/bowst-core/src/fixed.rs:549-556 | The decimal of `u` increments is exactly `u` steps for every 64-bit `u`, without saturating, and converts back to `u` under every rounding. |
| `FixedFast.NothingWraps` | crates/bowst-core/src/fixed.rs:532-540 | The wrapping digit loop computes the value of up to 18 digits and stops at any other byte. |
| `FixedFast.FastIsRight` | crates/bowst-core/src/fixed.rs:506-545 | Whatever the division-free path answers is what parsing and converting gives, for every byte string, increment and rounding. |
| `FixedFast.ParseExactPowerOfTen` | crates/bowst-core/src/fixed.rs:506-545 | The loops over the bytes compute the division-free path. |
| `FixedFast.ParseUnitsBytes` | crates/bowst-core/src/fixed.rs:492-497 | Equals parsing and then converting, in value and in error, on every input. |
| `Histograms.Partition` | crates/bowst-telemetry/src/histogram.rs:169-204 | The buckets partition the 64-bit values: a value is in exactly the bucket whose bounds hold it. |
| `Histograms.BucketMonotone` | crates/bowst-telemetry/src/histogram.rs:169-181 | Larger values never go to earlier buckets. |
| `Histograms.Contiguous` | crates/bowst-telemetry/src/histogram.rs:184-204 | Each bucket starts right where the one before it ends. |
| `Histograms.Ends` | crates/bowst-telemetry/src/histogram.rs:184-204 | The first bucket starts at 0 and the last one ends at the largest 64-bit value. |
| `Histograms.OverstatesLittle` | crates/bowst-telemetry/src/histogram.rs:169-204 | The end of the bucket of a value exceeds it by at most a 32nd. |
| `Histograms.RecordsAll` | crates/bowst-telemetry/src/histogram.rs:75-83 | After recording any list, every counter holds its exact total, cut off at 64 bits. |
| `Histograms.MergeIsRecordingBoth` | crates/bowst-telemetry/src/histogram.rs:139-147 | Merging two histograms equals having recorded both lists, saturation included. |
| `Histograms.RankIsLeast` | crates/bowst-telemetry/src/histogram.rs:161-165 | The rank is the least that reaches the share asked for, and never more than there are values. |
| `Histograms.PercentileBounds` | crates/bowst-telemetry/src/histogram.rs:108-121 | A reported percentile is at least the exact value of its rank, exceeds it by at most a 32nd, and never exceeds the largest value recorded. |
| `Histograms.PercentileShare` | crates/bowst-telemetry/src/histogram.rs:103-121 | At least the share asked for of the values recorded is at or below the reported percentile. |
| `Histograms.PercentileOfNone` | crates/bowst-telemetry/src/histogram.rs:103-121 | With nothing recorded every percentile is 0. |
| `Histograms.KthExists` | crates/bowst-telemetry/src/histogram.rs:108-121 | There is an exact value of every rank, so the bounds are about something. |
| `Histograms.LatencyHistogram.RecordValue` | crates/bowst-telemetry/src/histogram.rs:75-83 | Recording in place computes the recording step. |
| `Histograms.LatencyHistogram.ValueAtPpm` | crates/bowst-telemetry/src/histogram.rs:108-121 | The scan of the counters computes the reported percentile. |
| `Histograms.LatencyHistogram.MergeFrom` | crates/bowst-telemetry/src/histogram.rs:139-147 | Merging in place computes the merge and leaves the other histogram alone. |
| `RateLimits.GrantsBounded` | crates/bowst-venue/src/ratelimit.rs:24-81 | Over every run of calls, with the clock going back and forth, the tokens granted never exceed the capacity plus capacity times elapsed time over window; with no bound on capacity or window. |
| `RateLimits.TakeAnswers` | crates/bowst-venue/src/ratelimit.rs:51-72 | The answer of every take in plain arithmetic, with no bound on capacity or window: `Never` exactly for a cost above the capacity, the bucket untouched; granted exactly when what was left and what has accrued cover the cost, which is then charged; and otherwise the bucket keeps all it has. |
| `RateLimits.NeverIsForGood` | crates/bowst-venue/src/ratelimit.rs:51-72 | After every run of calls, a cost above the capacity is answered `Never` at any time, and any other cost is granted once a whole window has passed. |
| `RateLimits.WaitIsLeast` | crates/bowst-venue/src/ratelimit.rs:56-72 | A refused take succeeds at a later time exactly when the wait it was given has passed since the latest time the bucket has seen. |
| `RateLimits.RetryAfterWait` | crates/bowst-venue/src/ratelimit.rs:51-72 | Retrying once the advised wait has passed since the refusal succeeds exactly when the clock had not gone back. |
| `RateLimits.ClockBackRefusesAgain` | crates/bowst-venue/src/ratelimit.rs:51-72 | A concrete take that is refused with a wait of 10 at 50, refused again at 60 and granted at 110: the clock had been at 100. |
| `RateLimits.RefillTwice` | crates/bowst-venue/src/ratelimit.rs:34-42 | Refilling in two steps is refilling once: no fraction is lost by looking. |
| `RateLimits.ReportOnlyLowers` | crates/bowst-venue/src/ratelimit.rs:76-81 | A usage report never adds tokens, cuts the balance down to exactly what it says is unspent, and takes nothing from a lower balance. |
| `RateLimits.AvailableIsMostTakeable` | crates/bowst-venue/src/ratelimit.rs:45-72 | The whole tokens available are the most that one take can have. |
| `RateLimits.TokenBucket.Take` | crates/bowst-venue/src/ratelimit.rs:56-72 | Taking in place computes the take step, its answer included. |
| `RateLimits.TokenBucket.Available` | crates/bowst-venue/src/ratelimit.rs:45-49 | Refills and returns the whole tokens, never more than the capacity. |
| `RateLimits.TokenBucket.Observe` | crates/bowst-venue/src/ratelimit.rs:76-81 | Observing in place computes the report step. |

## Left out

- ReplayFiles.ReplayReader: reading a session description into new books is a parameter; the handler's reports are collected instead of being handed over one by one.
- SlotRing.PoppedIsPrefix: release and acquire accesses are atomic steps of one interleaving; weaker orderings, and reading a slot while it is being written, are not modelled.
- ByteRing.ReadIsPrefixOfWritten: likewise; the copying of a payload is one step, and the shared buffer is a value replaced by each step.
- MdVerification.MessageMismatchIff: when a level compared is beyond the edge of its snapshot, equally many levels may still differ, and no condition is given for that: which of those levels a book shows depends on which of them later messages happened to mention.
- MdVerification.SnapshotMismatchIff: likewise.
- MdBooks.MarketBooks.ApplyOne: the syncs of the instruments are held as values, not as objects of the class BookSync, so updating one sync in place inside the list is not captured there; BookSyncs.BookSync captures it for a sync on its own.
- SessionWorker.OneRequestEach: fewer than 2^64 reconnects; the channels between session and worker never lose a message while the worker is alive.
- JournalProducers.DropsAccountedFor: callers append no gap records themselves and fewer than 2^64 records are appended.
- RateLimits.WaitIsLeast: with a window of more than 2^64 nanoseconds the wait can be cut down to the longest duration expressible.
- Decoding of messages and snapshots (`json.rs`, `levels.rs`, `binance/depth.rs`, `exchange_info.rs`) is a parameter.
- Sockets, TLS, the HTTP and WebSocket handshakes, clocks, threads, backoff and sleeping.
- File handling, flushing, syncing to disk and write failures; a segment is a sequence of bytes.
- The strength of CRC-32 against corruption; the checksum is any function.
- Statistics, latency reports, metrics text and status texts for people; they do not influence the rest.
- The description of a session at the head of its journal (`describe`, `parse_description`): flat text with easy members.
- `Dec::checked_mul`, `Increment::parse` and `LatencyHistogram::summary`: short combinations of members that are modelled.
- Allocation, cache-line layout and `unsafe` pointer details.
