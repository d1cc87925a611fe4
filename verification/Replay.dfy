/** Replaying a session's journal (crates/bowst-venue/src/binance/replay.rs) reproduces what the live
    session reported: the same books and the same live/down changes, in the same order.

    The live session sometimes abandons a verification without journaling that: it timed out, its
    snapshot could not be fetched, or the request could not be sent
    (crates/bowst-venue/src/binance/md.rs:612-618, 643-649, 663-668). The replay then carries on with
    a verification the live session has given up. That makes a difference exactly when a message
    completes such a leftover, with a snapshot loaded, and its two books differ. */
module JournalReplay {
  import opened Common
  import opened Ladders
  import opened Books
  import opened BookSyncs
  import opened MdBooks
  import opened MdSessions

  datatype Replayed = Replayed(books: MdState, heard: seq<Heard>)

  /** One record, as the loop of `replay` handles it. */
  function ReplayRecord(dec: Decoders, r: Replayed, record: Record): Replayed
    requires MdInv(r.books)
  {
    match record
    case MessageRecord(raw) =>
      var (books, outcome) := ApplyMessage(dec, r.books, raw);
      Replayed(books, if outcome.Some? then r.heard + Report(books, outcome.value) else r.heard)
    case SnapshotRecord(i, raw, wall) =>
      var (books, _, heard) := TakeRawSnapshot(dec, r.books, i, raw, wall);
      Replayed(books, r.heard + heard)
    case VerifyStartRecord(i) => r.(books := StartVerification(r.books, i).0)
    case VerifySnapshotRecord(i, raw) =>
      var (books, _, heard) := TakeRawVerificationSnapshot(dec, r.books, i, raw);
      Replayed(books, r.heard + heard)
    case ResetRecord => r.(books := ResetAll(r.books))
    case StatusRecord => r
  }

  lemma ReplayRecordInv(dec: Decoders, r: Replayed, record: Record)
    requires MdInv(r.books)
    ensures MdInv(ReplayRecord(dec, r, record).books)
  {
    match record
    case MessageRecord(raw) => ApplyMessageInv(dec, r.books, raw);
    case SnapshotRecord(i, raw, wall) =>
      if dec.snapshot(i, raw).Some? { TakeSnapshotInv(r.books, i, dec.snapshot(i, raw).value, wall); }
    case VerifyStartRecord(_) => ShadowResetInv(r.books);
    case VerifySnapshotRecord(i, raw) =>
      ShadowResetInv(r.books);
      if dec.snapshot(i, raw).Some? { TakeVerificationSnapshotInv(r.books, i, dec.snapshot(i, raw).value); }
    case ResetRecord => ResetAllInv(r.books);
    case StatusRecord =>
  }

  function ReplayAll(dec: Decoders, start: MdState, journal: seq<Record>): (r: Replayed)
    requires MdInv(start)
    ensures MdInv(r.books)
  {
    var n := |journal|;
    if n == 0 then Replayed(start, [])
    else
      var before := ReplayAll(dec, start, journal[..n - 1]);
      ReplayRecordInv(dec, before, journal[n - 1]);
      ReplayRecord(dec, before, journal[n - 1])
  }

  // ---------------------------------------------------------------- resetting forgets everything

  /** Ladder updates and loads never change what clearing the ladder gives. */
  lemma ApplyClears(l: LadderState, price: int, qty: int)
    requires WellFormed(l)
    ensures Cleared(Apply(l, price, qty).0) == Cleared(l)
  {
  }

  lemma {:induction false} ApplyAllClears(b: BookState, updates: seq<LevelUpdate>)
    requires WellFormedBook(b) && ApplyAll(b, updates).Ok?
    ensures ClearedBook(ApplyAll(b, updates).value) == ClearedBook(b)
  {
    var n := |updates|;
    if n > 0 {
      ApplyAllClears(b, updates[..n - 1]);
      var b' := ApplyAll(b, updates[..n - 1]).value;
      ApplyClears(SideOf(b', updates[n - 1].side), updates[n - 1].price, updates[n - 1].qty);
    }
  }

  lemma OnDeltaResets(s: SyncState, d: Delta)
    requires SyncInv(s)
    ensures Reset(OnDelta(s, d).0) == Reset(s)
  {
    if s.live.Some? && ApplyAll(s.book, d.updates).Ok? { ApplyAllClears(s.book, d.updates); }
  }

  // ---------------------------------------------------------------- the simulation

  /** The replayed books stand for the live ones: the same syncs, and the same verification while the
      live session runs one; otherwise the replay may run a leftover one. In a `clean` session no
      snapshot was ever loaded into a leftover. */
  ghost predicate Simulates(clean: bool, live: MdState, replayed: MdState) {
    && MdInv(live) && MdInv(replayed)
    && live.syncs == replayed.syncs
    && Reset(live.shadow) == Reset(replayed.shadow)
    && (live.verifying.Some? ==> live == replayed)
    && (clean && live.verifying.None? && replayed.verifying.Some? ==> !replayed.loaded)
  }

  /** The message makes the replay take down a book that the live session reports: it completes a
      leftover verification, with a snapshot loaded, whose two books differ. */
  predicate Contradicts(dec: Decoders, live: MdState, replayed: MdState, m: seq<byte>)
    requires MdInv(replayed)
  {
    live.verifying.None? &&
    match dec.message(m)
    case None => false
    case Some(u) =>
      && u.instrument < |replayed.syncs| && replayed.verifying == Some(u.instrument) && replayed.loaded
      && var (fed, r) := Feed(replayed, u.instrument, u.delta);
         && r == Ok(DeltaApplied) && Due(fed)
         && Compare(fed.syncs[u.instrument].book, fed.shadow.book, fed.shadow.live.value).Some?
  }

  lemma FeedSimulates(clean: bool, live: MdState, replayed: MdState, i: nat, d: ValidDelta)
    requires Simulates(clean, live, replayed) && i < |live.syncs|
    ensures Feed(live, i, d).1 == Feed(replayed, i, d).1
    ensures Simulates(clean, Feed(live, i, d).0, Feed(replayed, i, d).0)
    ensures live.verifying.None? ==> Feed(live, i, d).0.verifying.None?
  {
    MdBooks.FeedInv(live, i, d);
    MdBooks.FeedInv(replayed, i, d);
    OnDeltaResets(replayed.shadow, d);
  }

  /** A leftover that is settled without a difference is gone without a trace. */
  lemma SettleSimulates(clean: bool, live: MdState, replayed: MdState)
    requires Simulates(clean, live, replayed) && live.verifying.None? && Settle(replayed).1.None?
    ensures Simulates(clean, live, Settle(replayed).0)
  {
    SettleInv(replayed);
  }

  /** What a message does to the live books and to replayed ones that may run a leftover: the same,
      report included, unless it contradicts; then the live session reports the book and the replay
      takes it down. */
  lemma AbandonedVerdict(clean: bool, dec: Decoders, live: MdState, replayed: MdState, m: seq<byte>)
    requires Simulates(clean, live, replayed)
    ensures var (l, a) := ApplyMessage(dec, live, m);
            var (r, b) := ApplyMessage(dec, replayed, m);
            if Contradicts(dec, live, replayed, m) then
              && a.Some? && |Report(l, a.value)| == 1 && Report(l, a.value)[0].HeardBook?
              && b.Some? && |Report(r, b.value)| == 1 && Report(r, b.value)[0].HeardDown?
            else
              a == b && Simulates(clean, l, r) && (a.Some? ==> Report(l, a.value) == Report(r, a.value))
  {
    ApplyMessageInv(dec, live, m);
    ApplyMessageInv(dec, replayed, m);
    var u := dec.message(m);
    if live.verifying.None? && u.Some? && u.value.instrument < |live.syncs| {
      var i, d := u.value.instrument, u.value.delta;
      if replayed.verifying == Some(i) && Feed(replayed, i, d).1 == Ok(DeltaApplied) {
        LeftoverVerdict(clean, dec, live, replayed, m);
      } else {
        ElsewhereVerdict(clean, dec, live, replayed, m);
      }
    }
  }

  /** The case of a message that leaves a leftover alone, or ends it without a comparison. */
  lemma ElsewhereVerdict(clean: bool, dec: Decoders, live: MdState, replayed: MdState, m: seq<byte>)
    requires Simulates(clean, live, replayed) && live.verifying.None? && dec.message(m).Some?
    requires dec.message(m).value.instrument < |live.syncs|
    requires replayed.verifying == Some(dec.message(m).value.instrument) ==>
               Feed(replayed, dec.message(m).value.instrument, dec.message(m).value.delta).1 != Ok(DeltaApplied)
    ensures var (l, a) := ApplyMessage(dec, live, m);
            var (r, b) := ApplyMessage(dec, replayed, m);
            && !Contradicts(dec, live, replayed, m)
            && a == b && Simulates(clean, l, r) && (a.Some? ==> Report(l, a.value) == Report(r, a.value))
  {
    FeedSimulates(clean, live, replayed, dec.message(m).value.instrument, dec.message(m).value.delta);
  }

  /** The case of a message for the instrument of a leftover. */
  lemma LeftoverVerdict(clean: bool, dec: Decoders, live: MdState, replayed: MdState, m: seq<byte>)
    requires Simulates(clean, live, replayed) && live.verifying.None? && dec.message(m).Some?
    requires dec.message(m).value.instrument < |live.syncs|
    requires replayed.verifying == Some(dec.message(m).value.instrument)
    requires Feed(replayed, dec.message(m).value.instrument, dec.message(m).value.delta).1 == Ok(DeltaApplied)
    ensures var (l, a) := ApplyMessage(dec, live, m);
            var (r, b) := ApplyMessage(dec, replayed, m);
            if Contradicts(dec, live, replayed, m) then
              && a.Some? && |Report(l, a.value)| == 1 && Report(l, a.value)[0].HeardBook?
              && b.Some? && |Report(r, b.value)| == 1 && Report(r, b.value)[0].HeardDown?
            else
              a == b && Simulates(clean, l, r) && (a.Some? ==> Report(l, a.value) == Report(r, a.value))
  {
    var u := dec.message(m).value;
    FeedSimulates(clean, live, replayed, u.instrument, u.delta);
    var fedLive, fed := Feed(live, u.instrument, u.delta).0, Feed(replayed, u.instrument, u.delta).0;
    assert ApplyMessage(dec, live, m) == (fedLive, Some(BookChanged(u.instrument, u.eventTime)));
    if Settle(fed).1.None? { SettleSimulates(clean, fedLive, fed); }
  }

  /** In a clean session nothing contradicts. */
  lemma CleanNeverContradicts(dec: Decoders, live: MdState, replayed: MdState, m: seq<byte>)
    requires Simulates(true, live, replayed)
    ensures !Contradicts(dec, live, replayed, m)
  {
  }

  lemma SnapshotSimulates(clean: bool, dec: Decoders, live: MdState, replayed: MdState,
                          i: nat, raw: seq<byte>, body: SnapshotBody, time: int)
    requires Simulates(clean, live, replayed) && dec.snapshot(i, raw) == Some(body)
    ensures var (l, a, x) := TakeSnapshot(live, i, body, time);
            var (r, b, y) := TakeRawSnapshot(dec, replayed, i, raw, time);
            a == b && x == y && Simulates(clean, l, r)
  {
    TakeSnapshotInv(live, i, body, time);
    TakeSnapshotInv(replayed, i, body, time);
  }

  lemma StartSimulates(clean: bool, live: MdState, replayed: MdState, i: nat)
    requires Simulates(clean, live, replayed) && IsLive(live, i)
    ensures Simulates(clean, StartVerification(live, i).0, StartVerification(replayed, i).0)
  {
    ShadowResetInv(live);
    ShadowResetInv(replayed);
  }

  lemma VerificationSimulates(clean: bool, dec: Decoders, live: MdState, replayed: MdState,
                              i: nat, raw: seq<byte>, body: SnapshotBody)
    requires Simulates(clean, live, replayed) && live.verifying == Some(i) && dec.snapshot(i, raw) == Some(body)
    requires i < |live.syncs|
    ensures var (l, a, x) := TakeVerificationSnapshot(live, i, body);
            var (r, b, y) := TakeRawVerificationSnapshot(dec, replayed, i, raw);
            a == b && x == y && Simulates(clean, l, r)
  {
    TakeVerificationSnapshotInv(live, i, body);
  }

  lemma ResetSimulates(clean: bool, live: MdState, replayed: MdState)
    requires Simulates(clean, live, replayed)
    ensures Simulates(clean, ResetAll(live), ResetAll(replayed))
  {
    ResetAllInv(live);
    ResetAllInv(replayed);
  }

  /** Abandoning a verification, unknown to the replay, leaves it behind there. */
  lemma CancelSimulates(clean: bool, live: MdState, replayed: MdState)
    requires Simulates(clean, live, replayed) && (clean ==> !(live.verifying.Some? && live.loaded))
    ensures Simulates(clean, CancelVerification(live), replayed)
  {
    ShadowResetInv(live);
  }

  // ---------------------------------------------------------------- whole sessions

  /** The journal written so far replays to books that stand for the live ones, and to everything
      heard so far. */
  ghost predicate Matches(clean: bool, dec: Decoders, start: MdState, books: MdState, journal: seq<Record>,
                          heard: seq<Heard>)
    requires MdInv(start)
  {
    && Simulates(clean, books, ReplayAll(dec, start, journal).books)
    && heard == ReplayAll(dec, start, journal).heard
    && (books.verifying.Some? ==> books.verifying.value < |books.syncs|)
  }

  lemma ReplayAppend(dec: Decoders, start: MdState, journal: seq<Record>, record: Record)
    requires MdInv(start)
    ensures ReplayAll(dec, start, journal + [record]) == ReplayRecord(dec, ReplayAll(dec, start, journal), record)
  {
    assert (journal + [record])[..|journal|] == journal;
  }

  lemma MatchReset(clean: bool, dec: Decoders, start: MdState, books: MdState, journal: seq<Record>, heard: seq<Heard>)
    requires MdInv(start) && Matches(clean, dec, start, books, journal, heard)
    ensures Matches(clean, dec, start, ResetAll(books), journal + [ResetRecord], heard)
  {
    ReplayAppend(dec, start, journal, ResetRecord);
    ResetSimulates(clean, books, ReplayAll(dec, start, journal).books);
  }

  /** What is heard with a message. */
  function HeardWith(heard: seq<Heard>, books: MdState, outcome: Option<Outcome>): seq<Heard> {
    if outcome.Some? then heard + Report(books, outcome.value) else heard
  }

  lemma MatchMessage(clean: bool, dec: Decoders, start: MdState, books: MdState, journal: seq<Record>,
                     heard: seq<Heard>, m: seq<byte>)
    requires MdInv(start) && Matches(clean, dec, start, books, journal, heard)
    requires !Contradicts(dec, books, ReplayAll(dec, start, journal).books, m)
    ensures var (books', outcome) := ApplyMessage(dec, books, m);
            Matches(clean, dec, start, books', journal + [MessageRecord(m)], HeardWith(heard, books', outcome))
  {
    ReplayAppend(dec, start, journal, MessageRecord(m));
    AbandonedVerdict(clean, dec, books, ReplayAll(dec, start, journal).books, m);
    MessageVerifying(dec, books, m);
  }

  lemma MessageVerifying(dec: Decoders, s: MdState, m: seq<byte>)
    requires MdInv(s)
    ensures var s' := ApplyMessage(dec, s, m).0;
            |s'.syncs| == |s.syncs| && (s'.verifying == s.verifying || s'.verifying.None?)
  {
  }

  lemma MatchSnapshot(clean: bool, dec: Decoders, start: MdState, books: MdState, journal: seq<Record>,
                      heard: seq<Heard>, i: nat, raw: seq<byte>, body: SnapshotBody, wall: int)
    requires MdInv(start) && Matches(clean, dec, start, books, journal, heard) && dec.snapshot(i, raw) == Some(body)
    ensures var (books', _, more) := TakeSnapshot(books, i, body, wall);
            Matches(clean, dec, start, books', journal + [SnapshotRecord(i, raw, wall)], heard + more)
  {
    ReplayAppend(dec, start, journal, SnapshotRecord(i, raw, wall));
    SnapshotSimulates(clean, dec, books, ReplayAll(dec, start, journal).books, i, raw, body, wall);
    SnapshotVerifying(books, i, body, wall);
  }

  lemma SnapshotVerifying(s: MdState, i: nat, body: SnapshotBody, time: int)
    requires MdInv(s)
    ensures var (s', _, _) := TakeSnapshot(s, i, body, time);
            |s'.syncs| == |s.syncs| && s'.verifying == s.verifying
    ensures var (s', _, _) := TakeVerificationSnapshot(s, i, body);
            |s'.syncs| == |s.syncs| && (s'.verifying == s.verifying || s'.verifying.None?)
  {
  }

  lemma MatchVerification(clean: bool, dec: Decoders, start: MdState, books: MdState,
                          journal: seq<Record>, heard: seq<Heard>, i: nat, raw: seq<byte>, body: SnapshotBody)
    requires MdInv(start) && Matches(clean, dec, start, books, journal, heard) && dec.snapshot(i, raw) == Some(body)
    requires books.verifying == Some(i)
    ensures var (books', _, more) := TakeVerificationSnapshot(books, i, body);
            Matches(clean, dec, start, books', journal + [VerifySnapshotRecord(i, raw)], heard + more)
  {
    ReplayAppend(dec, start, journal, VerifySnapshotRecord(i, raw));
    ReplaysVerification(dec, ReplayAll(dec, start, journal), i, raw, body);
    VerificationSimulates(clean, dec, books, ReplayAll(dec, start, journal).books, i, raw, body);
    SnapshotVerifying(books, i, body, 0);
  }

  lemma ReplaysVerification(dec: Decoders, r: Replayed, i: nat, raw: seq<byte>, body: SnapshotBody)
    requires MdInv(r.books) && dec.snapshot(i, raw) == Some(body) && i < |r.books.syncs|
    ensures var (books, _, more) := TakeVerificationSnapshot(r.books, i, body);
            ReplayRecord(dec, r, VerifySnapshotRecord(i, raw)) == Replayed(books, r.heard + more)
  {
  }

  lemma MatchCancel(clean: bool, dec: Decoders, start: MdState, books: MdState, journal: seq<Record>, heard: seq<Heard>)
    requires MdInv(start) && Matches(clean, dec, start, books, journal, heard)
    requires clean ==> !(books.verifying.Some? && books.loaded)
    ensures Matches(clean, dec, start, CancelVerification(books), journal, heard)
  {
    CancelSimulates(clean, books, ReplayAll(dec, start, journal).books);
  }

  lemma MatchStart(clean: bool, dec: Decoders, start: MdState, books: MdState, journal: seq<Record>,
                   heard: seq<Heard>, i: nat)
    requires MdInv(start) && Matches(clean, dec, start, books, journal, heard) && IsLive(books, i)
    ensures Matches(clean, dec, start, StartVerification(books, i).0, journal + [VerifyStartRecord(i)], heard)
  {
    ReplayAppend(dec, start, journal, VerifyStartRecord(i));
    StartSimulates(clean, books, ReplayAll(dec, start, journal).books, i);
  }

  lemma MatchStatus(clean: bool, dec: Decoders, start: MdState, books: MdState, journal: seq<Record>, heard: seq<Heard>)
    requires MdInv(start) && Matches(clean, dec, start, books, journal, heard)
    ensures Matches(clean, dec, start, books, journal + [StatusRecord], heard)
  {
    ReplayAppend(dec, start, journal, StatusRecord);
  }

  /** What the worker hands over decodes from the bytes it hands over with it. */
  ghost predicate DecodedHonestly(dec: Decoders, results: seq<JobResult>) {
    forall r :: r in results && r.outcome.Fetched? ==>
      dec.snapshot(r.job.instrument, r.outcome.raw) == Some(r.outcome.body)
  }

  ghost predicate InStep(clean: bool, dec: Decoders, start: MdState, s: Session)
    requires MdInv(start)
  {
    Matches(clean, dec, start, s.books, s.journal, s.heard) && DecodedHonestly(dec, s.results)
  }

  /** The turn receives a message that contradicts, in the books as they are and in those the journal
      so far replays to. */
  predicate ContradictsAt(dec: Decoders, start: MdState, s: Session, t: Turn)
    requires MdInv(start)
  {
    t.Receive? && Contradicts(dec, s.books, ReplayAll(dec, start, s.journal).books, t.message)
  }

  /** The turn abandons, without a journal record, a verification whose snapshot was loaded: it took
      too long, or a later request for the same instrument failed. */
  predicate AbandonsLoaded(cfg: SessionConfig, s: Session, t: Turn) {
    && s.books.verifying.Some? && s.books.loaded
    && match t
       case Schedule(now, _) => TimedOut(cfg, s, now)
       case Collect(_) =>
         && s.results != [] && s.results[0].job.generation == s.generation
         && s.results[0].job.purpose.ToVerify? && s.results[0].outcome.FetchFailed?
         && s.verification.Some? && s.verification.value.0 == s.results[0].job.instrument
         && s.books.verifying == Some(s.results[0].job.instrument)
       case _ => false
  }

  lemma ReceiveInStep(clean: bool, dec: Decoders, start: MdState, s: Session, m: seq<byte>)
    requires MdInv(start) && InStep(clean, dec, start, s) && !ContradictsAt(dec, start, s, Receive(m))
    ensures InStep(clean, dec, start, OnReceive(dec, s, m))
  {
    MatchMessage(clean, dec, start, s.books, s.journal, s.heard, m);
    var (books, outcome) := ApplyMessage(dec, s.books, m);
    if outcome.None? {
      MatchReset(clean, dec, start, books, s.journal + [MessageRecord(m)], s.heard);
    }
  }

  lemma CollectInStep(clean: bool, dec: Decoders, cfg: SessionConfig, start: MdState, s: Session, now: int)
    requires MdInv(start) && InStep(clean, dec, start, s) && (clean ==> !AbandonsLoaded(cfg, s, Collect(now)))
    ensures InStep(clean, dec, start, OnCollect(cfg, s, now))
  {
    if s.results != [] {
      var r := s.results[0];
      var s' := s.(results := s.results[1..]);
      assert r in s.results;
      if r.job.generation == s.generation {
        if r.job.purpose.ToSync? {
          SyncInStep(clean, dec, cfg, start, s', r, now);
        } else {
          VerifyInStep(clean, dec, start, s', r);
        }
      }
    }
  }

  lemma SyncInStep(clean: bool, dec: Decoders, cfg: SessionConfig, start: MdState, s: Session, r: JobResult, now: int)
    requires MdInv(start) && InStep(clean, dec, start, s)
    requires r.outcome.Fetched? ==> dec.snapshot(r.job.instrument, r.outcome.raw) == Some(r.outcome.body)
    ensures InStep(clean, dec, start, ApplySnapshot(cfg, s, r, now))
  {
    match r.outcome
    case FetchFailed(_) => MatchStatus(clean, dec, start, s.books, s.journal, s.heard);
    case Fetched(raw, body, fetchedAt) =>
      MatchSnapshot(clean, dec, start, s.books, s.journal, s.heard, r.job.instrument, raw, body, fetchedAt);
  }

  lemma VerifyInStep(clean: bool, dec: Decoders, start: MdState, s: Session, r: JobResult)
    requires MdInv(start) && InStep(clean, dec, start, s)
    requires r.outcome.Fetched? ==> dec.snapshot(r.job.instrument, r.outcome.raw) == Some(r.outcome.body)
    requires (&& clean && r.outcome.FetchFailed? && s.verification.Some?
              && s.verification.value.0 == r.job.instrument
              && s.books.verifying == Some(r.job.instrument)) ==> !s.books.loaded
    ensures InStep(clean, dec, start, ApplyVerificationSnapshot(s, r))
  {
    var i := r.job.instrument;
    if s.verification.Some? && s.verification.value.0 == i && s.books.verifying == Some(i) {
      match r.outcome
      case FetchFailed(_) => MatchCancel(clean, dec, start, s.books, s.journal, s.heard);
      case Fetched(raw, body, _) => MatchVerification(clean, dec, start, s.books, s.journal, s.heard, i, raw, body);
    }
  }

  lemma {:induction false} NextLiveIsLive(books: MdState, cursor: nat, step: nat, count: nat)
    requires step <= count
    ensures NextLive(books, cursor, step, count).Some? ==> IsLive(books, NextLive(books, cursor, step, count).value)
    decreases count - step
  {
    if step < count && !IsLive(books, (cursor + step) % count) { NextLiveIsLive(books, cursor, step + 1, count); }
  }

  /** Starting the next verification, if any instrument is due, keeps the journal in step; so does
      starting it and giving it up at once because the worker is gone. */
  lemma NextInStep(clean: bool, dec: Decoders, start: MdState, books: MdState, journal: seq<Record>, heard: seq<Heard>,
                   i: nat)
    requires MdInv(start) && Matches(clean, dec, start, books, journal, heard) && IsLive(books, i)
    ensures var started := StartVerification(books, i).0;
            && Matches(clean, dec, start, started, journal + [VerifyStartRecord(i)], heard)
            && Matches(clean, dec, start, CancelVerification(started), journal + [VerifyStartRecord(i)], heard)
  {
    MatchStart(clean, dec, start, books, journal, heard, i);
    MatchCancel(clean, dec, start, StartVerification(books, i).0, journal + [VerifyStartRecord(i)], heard);
  }

  /** Scheduling with a verification that took too long is giving it up and then scheduling. */
  lemma TimeoutFirst(cfg: SessionConfig, s: Session, now: int, alive: bool)
    requires s.verification.Some? && TimedOut(cfg, s, now)
    ensures OnSchedule(cfg, s, now, alive)
         == OnSchedule(cfg, s.(books := CancelVerification(s.books), verification := None), now, alive)
  {
  }

  lemma ScheduleInStep(clean: bool, dec: Decoders, cfg: SessionConfig, start: MdState, s: Session, now: int,
                       alive: bool)
    requires MdInv(start) && InStep(clean, dec, start, s) && (clean ==> !AbandonsLoaded(cfg, s, Schedule(now, alive)))
    ensures InStep(clean, dec, start, OnSchedule(cfg, s, now, alive))
  {
    if s.verification.Some? && TimedOut(cfg, s, now) {
      MatchCancel(clean, dec, start, s.books, s.journal, s.heard);
      var s1 := s.(books := CancelVerification(s.books), verification := None);
      ScheduleNextInStep(clean, dec, cfg, start, s1, now, alive);
      TimeoutFirst(cfg, s, now, alive);
    } else if s.verification.None? {
      ScheduleNextInStep(clean, dec, cfg, start, s, now, alive);
    }
  }

  /** Scheduling with no verification running. */
  lemma ScheduleNextInStep(clean: bool, dec: Decoders, cfg: SessionConfig, start: MdState, s: Session, now: int,
                           alive: bool)
    requires MdInv(start) && InStep(clean, dec, start, s) && s.verification.None?
    ensures InStep(clean, dec, start, OnSchedule(cfg, s, now, alive))
  {
    NextLiveIsLive(s.books, s.verifyCursor, 0, |s.states|);
    var next := NextLive(s.books, s.verifyCursor, 0, |s.states|);
    if next.Some? { NextInStep(clean, dec, start, s.books, s.journal, s.heard, next.value); }
  }

  lemma WorkerInStep(clean: bool, dec: Decoders, start: MdState, s: Session, t: Turn)
    requires MdInv(start) && InStep(clean, dec, start, s)
    ensures InStep(clean, dec, start, WorkerStep(dec, s, t))
  {
  }

  /** Every turn that does not contradict keeps the replay of the journal in step with the session. */
  lemma StepInStep(clean: bool, dec: Decoders, cfg: SessionConfig, start: MdState, s: Session, t: Turn)
    requires MdInv(start) && InStep(clean, dec, start, s)
    requires !ContradictsAt(dec, start, s, t) && (clean ==> !AbandonsLoaded(cfg, s, t))
    ensures InStep(clean, dec, start, Step(dec, cfg, s, t))
  {
    match t
    case Receive(m) => ReceiveInStep(clean, dec, start, s, m);
    case Collect(now) => CollectInStep(clean, dec, cfg, start, s, now);
    case Request(now, _) => RequestKeeps(s, |s.states|, now);
    case Schedule(now, alive) => ScheduleInStep(clean, dec, cfg, start, s, now, alive);
    case Disconnect => MatchReset(clean, dec, start, s.books, s.journal, s.heard);
    case _ => WorkerInStep(clean, dec, start, s, t);
  }

  // ---------------------------------------------------------------- once they part

  /** The two reports differ at some position, so no longer reports that start with them are equal. */
  ghost predicate Diverged(a: seq<Heard>, b: seq<Heard>) {
    exists i :: 0 <= i < |a| && i < |b| && a[i] != b[i]
  }

  lemma DivergedStays(a: seq<Heard>, b: seq<Heard>, a': seq<Heard>, b': seq<Heard>)
    requires Diverged(a, b) && a <= a' && b <= b'
    ensures Diverged(a', b') && a' != b'
  {
    var i :| 0 <= i < |a| && i < |b| && a[i] != b[i];
    assert a'[i] == a[i] && b'[i] == b[i];
  }

  lemma DivergeHere(before: seq<Heard>, x: seq<Heard>, y: seq<Heard>)
    requires |x| >= 1 && |y| >= 1 && x[0] != y[0]
    ensures Diverged(before + x, before + y)
  {
    var i := |before|;
    assert (before + x)[i] == x[0] && (before + y)[i] == y[0];
  }

  ghost predicate Grows(s: Session, s': Session) {
    s.journal <= s'.journal && s.heard <= s'.heard
  }

  lemma CollectGrows(cfg: SessionConfig, s: Session, now: int)
    requires MdInv(s.books)
    ensures Grows(s, OnCollect(cfg, s, now))
  {
  }

  lemma ScheduleGrows(cfg: SessionConfig, s: Session, now: int, alive: bool)
    ensures Grows(s, OnSchedule(cfg, s, now, alive))
  {
  }

  lemma ReceiveGrows(dec: Decoders, s: Session, m: seq<byte>)
    requires MdInv(s.books)
    ensures Grows(s, OnReceive(dec, s, m))
  {
  }

  /** Sessions only add to what they journal and report. */
  lemma SessionGrows(dec: Decoders, cfg: SessionConfig, s: Session, t: Turn)
    requires MdInv(s.books)
    ensures Grows(s, Step(dec, cfg, s, t))
  {
    match t
    case Receive(m) => ReceiveGrows(dec, s, m);
    case Collect(now) => CollectGrows(cfg, s, now);
    case Request(now, _) => RequestKeeps(s, |s.states|, now);
    case Schedule(now, alive) => ScheduleGrows(cfg, s, now, alive);
    case _ =>
  }

  /** And replays only add to what they report. */
  lemma {:induction false} ReplayGrows(dec: Decoders, start: MdState, journal: seq<Record>, longer: seq<Record>)
    requires MdInv(start) && journal <= longer
    ensures ReplayAll(dec, start, journal).heard <= ReplayAll(dec, start, longer).heard
    decreases |longer|
  {
    if journal != longer {
      var n := |longer| - 1;
      ShorterPrefix(journal, longer);
      ReplayGrows(dec, start, journal, longer[..n]);
      ReplayAddsOn(dec, ReplayAll(dec, start, longer[..n]), longer[n]);
    } else {
      assert journal == longer;
    }
  }

  lemma ReplayAddsOn(dec: Decoders, r: Replayed, record: Record)
    requires MdInv(r.books)
    ensures r.heard <= ReplayRecord(dec, r, record).heard
  {
  }

  /** A turn that contradicts makes the reports diverge. */
  lemma ContradictionDiverges(clean: bool, dec: Decoders, cfg: SessionConfig, start: MdState, s: Session, t: Turn)
    requires MdInv(start) && InStep(clean, dec, start, s) && ContradictsAt(dec, start, s, t)
    ensures var s' := Step(dec, cfg, s, t);
            Diverged(s'.heard, ReplayAll(dec, start, s'.journal).heard)
  {
    var m := t.message;
    var r := ReplayAll(dec, start, s.journal);
    AbandonedVerdict(clean, dec, s.books, r.books, m);
    ReplayAppend(dec, start, s.journal, MessageRecord(m));
    var (l, a) := ApplyMessage(dec, s.books, m);
    var (b, c) := ApplyMessage(dec, r.books, m);
    DivergeHere(s.heard, Report(l, a.value), Report(b, c.value));
  }

  /** Once the reports have diverged no turn brings them together again. */
  lemma StaysDiverged(dec: Decoders, cfg: SessionConfig, start: MdState, s: Session, t: Turn)
    requires MdInv(start) && MdInv(s.books) && Diverged(s.heard, ReplayAll(dec, start, s.journal).heard)
    ensures var s' := Step(dec, cfg, s, t);
            Diverged(s'.heard, ReplayAll(dec, start, s'.journal).heard)
  {
    var s' := Step(dec, cfg, s, t);
    SessionGrows(dec, cfg, s, t);
    ReplayGrows(dec, start, s.journal, s'.journal);
    DivergedStays(s.heard, ReplayAll(dec, start, s.journal).heard, s'.heard, ReplayAll(dec, start, s'.journal).heard);
  }

  // ---------------------------------------------------------------- whole runs

  /** Some turn of the run contradicts. */
  predicate EverContradicts(dec: Decoders, cfg: SessionConfig, start: MdState, turns: seq<Turn>)
    requires MdInv(start)
  {
    var n := |turns|;
    n > 0 && (EverContradicts(dec, cfg, start, turns[..n - 1])
              || ContradictsAt(dec, start, Run(dec, cfg, New(start), turns[..n - 1]), turns[n - 1]))
  }

  /** A run that never contradicts stays in step; one that does has diverged for good. */
  lemma {:induction false} RunVerdict(dec: Decoders, cfg: SessionConfig, start: MdState, turns: seq<Turn>)
    requires MdInv(start) && start.verifying.None?
    ensures var s := Run(dec, cfg, New(start), turns);
            if EverContradicts(dec, cfg, start, turns) then Diverged(s.heard, ReplayAll(dec, start, s.journal).heard)
            else InStep(false, dec, start, s)
  {
    if turns != [] {
      var n := |turns| - 1;
      var s := Run(dec, cfg, New(start), turns[..n]);
      RunVerdict(dec, cfg, start, turns[..n]);
      if EverContradicts(dec, cfg, start, turns[..n]) {
        StaysDiverged(dec, cfg, start, s, turns[n]);
      } else if ContradictsAt(dec, start, s, turns[n]) {
        ContradictionDiverges(false, dec, cfg, start, s, turns[n]);
      } else {
        StepInStep(false, dec, cfg, start, s, turns[n]);
      }
    }
  }

  /** Over every run of a live session: replaying its journal into the books it started with makes the
      handler hear exactly what the live handler heard if and only if no message of the run
      contradicts. Then the books at the end are the same, too. */
  lemma ReplayExactIff(dec: Decoders, cfg: SessionConfig, start: MdState, turns: seq<Turn>)
    requires MdInv(start) && start.verifying.None?
    ensures var live := Run(dec, cfg, New(start), turns);
            var replayed := ReplayAll(dec, start, live.journal);
            && (replayed.heard == live.heard <==> !EverContradicts(dec, cfg, start, turns))
            && (replayed.heard == live.heard ==> replayed.books.syncs == live.books.syncs)
            && (replayed.heard != live.heard ==> Diverged(live.heard, replayed.heard))
  {
    RunVerdict(dec, cfg, start, turns);
  }

  ghost predicate NeverAbandonsLoaded(dec: Decoders, cfg: SessionConfig, s: Session, turns: seq<Turn>)
    requires MdInv(s.books)
  {
    forall k :: 0 <= k < |turns| ==> !AbandonsLoaded(cfg, Run(dec, cfg, s, turns[..k]), turns[k])
  }

  lemma {:induction false} CleanRun(dec: Decoders, cfg: SessionConfig, start: MdState, turns: seq<Turn>)
    requires MdInv(start) && start.verifying.None?
    requires NeverAbandonsLoaded(dec, cfg, New(start), turns)
    ensures InStep(true, dec, start, Run(dec, cfg, New(start), turns))
    ensures !EverContradicts(dec, cfg, start, turns)
  {
    if turns != [] {
      var n := |turns| - 1;
      var s := Run(dec, cfg, New(start), turns[..n]);
      assert forall k :: 0 <= k <= n ==> turns[..n][..k] == turns[..k];
      CleanRun(dec, cfg, start, turns[..n]);
      assert !AbandonsLoaded(cfg, s, turns[n]);
      if turns[n].Receive? {
        CleanNeverContradicts(dec, s.books, ReplayAll(dec, start, s.journal).books, turns[n].message);
      }
      StepInStep(true, dec, cfg, start, s, turns[n]);
    }
  }

  /** So a run that never abandons a verification with its snapshot loaded replays exactly. */
  lemma ReplayReproducesSession(dec: Decoders, cfg: SessionConfig, start: MdState, turns: seq<Turn>)
    requires MdInv(start) && start.verifying.None?
    requires NeverAbandonsLoaded(dec, cfg, New(start), turns)
    ensures var live := Run(dec, cfg, New(start), turns);
            var replayed := ReplayAll(dec, start, live.journal);
            replayed.heard == live.heard && replayed.books.syncs == live.books.syncs
  {
    CleanRun(dec, cfg, start, turns);
    ReplayExactIff(dec, cfg, start, turns);
  }

  /** The loop of `replay` over a session's records, into books as the session started with. */
  method ReplayJournal(dec: Decoders, books: MarketBooks, journal: seq<Record>) returns (heard: seq<Heard>)
    requires books.Valid()
    modifies books
    ensures books.Valid()
    ensures Replayed(books.View(), heard) == ReplayAll(dec, old(books.View()), journal)
  {
    heard := [];
    var k := 0;
    while k < |journal|
      invariant 0 <= k <= |journal| && books.Valid()
      invariant Replayed(books.View(), heard) == ReplayAll(dec, old(books.View()), journal[..k])
    {
      assert journal[..k + 1][..k] == journal[..k];
      var more := ReplayOneRecord(dec, books, journal[k]);
      heard := heard + more;
      k := k + 1;
    }
    assert journal[..k] == journal;
  }

  method ReplayOneRecord(dec: Decoders, books: MarketBooks, record: Record) returns (more: seq<Heard>)
    requires books.Valid()
    modifies books
    ensures books.Valid()
    ensures forall heard: seq<Heard> ::
              ReplayRecord(dec, Replayed(old(books.View()), heard), record) == Replayed(books.View(), heard + more)
  {
    more := [];
    match record
    case MessageRecord(raw) =>
      var outcome := books.ApplyOne(dec, raw);
      if outcome.Some? {
        more := Report(MdState(books.syncs, books.shadow, books.verifying, books.loaded), outcome.value);
      }
    case SnapshotRecord(i, raw, wall) =>
      var _, heard := books.LoadRawSnapshot(dec, i, raw, wall);
      more := heard;
    case VerifyStartRecord(i) => var _ := books.Start(i);
    case VerifySnapshotRecord(i, raw) =>
      var _, heard := books.LoadRawVerification(dec, i, raw);
      more := heard;
    case ResetRecord => books.ResetBooks();
    case StatusRecord =>
  }
}
