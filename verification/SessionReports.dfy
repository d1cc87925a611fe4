/** What the handler of a market-data session is told (crates/bowst-venue/src/binance/md.rs): every book
    that it hears is the current book of the instrument named, and it shows the venue. */
module SessionReports {
  import opened Common
  import opened Ladders
  import opened Books
  import opened BookSyncs
  import VenueFeed
  import opened MdBooks
  import MdVerification
  import opened MdSessions
  import opened SessionTurns
  import JournalReplay

  // ---------------------------------------------------------------- which books are heard

  /** The handler hears of a live book, as it is. */
  predicate CurrentBook(s: Session, x: Heard) {
    x.HeardBook? ==> IsLive(s.books, x.instrument) && x.book == s.books.syncs[x.instrument].book
  }

  ghost predicate HearsCurrent(s: Session, s': Session) {
    s.heard <= s'.heard && forall x :: x in Added(s, s') ==> CurrentBook(s', x)
  }

  lemma HeardMore(s: Session, s': Session, more: seq<Heard>)
    requires s'.heard == s.heard + more && forall x :: x in more ==> CurrentBook(s', x)
    ensures HearsCurrent(s, s')
  {
    assert Added(s, s') == more;
  }

  lemma ReceiveHearsCurrent(dec: Decoders, s: Session, m: seq<byte>)
    requires MdInv(s.books)
    ensures HearsCurrent(s, OnReceive(dec, s, m))
  {
    ReceiveHears(dec, s, m);
    var s' := OnReceive(dec, s, m);
    if Attributable(dec, s, m) {
      BookHeardIsLive(s.books, s'.books, dec.message(m).value, Added(s, s'));
    } else {
      assert Added(s, s') == [];
    }
  }

  lemma BookHeardIsLive(s: MdState, s': MdState, u: Update, heard: seq<Heard>)
    requires MdInv(s) && u.instrument < |s.syncs| == |s'.syncs| && HearsOf(s, s', u, heard)
    ensures forall x :: x in heard && x.HeardBook? ==>
              IsLive(s', x.instrument) && x.book == s'.syncs[x.instrument].book
  {
  }

  lemma CollectHearsCurrent(cfg: SessionConfig, s: Session, now: int)
    requires MdInv(s.books)
    ensures HearsCurrent(s, OnCollect(cfg, s, now))
  {
    var s' := OnCollect(cfg, s, now);
    if s.results == [] {
      HeardMore(s, s', []);
    } else {
      var r := s.results[0];
      if NextIsSync(s, r) {
        SyncHearsCurrent(cfg, s, now, r);
      } else if r.job.generation == s.generation {
        CollectVerifies(cfg, s, now, r);
        if r.outcome.Fetched? { VerificationHeard(s.books, r.job.instrument, r.outcome.body); }
        HeardMore(s, s', s'.heard[|s.heard|..]);
      } else {
        HeardMore(s, s', []);
      }
    }
  }

  lemma SyncHearsCurrent(cfg: SessionConfig, s: Session, now: int, r: JobResult)
    requires MdInv(s.books) && NextIsSync(s, r)
    ensures HearsCurrent(s, OnCollect(cfg, s, now))
  {
    var s' := OnCollect(cfg, s, now);
    if r.outcome.FetchFailed? {
      CollectFails(cfg, s, now, r);
      HeardMore(s, s', []);
    } else if r.job.instrument < |s.books.syncs| {
      CollectHears(cfg, s, now, r);
      HeardMore(s, s', s'.heard[|s.heard|..]);
    } else {
      HeardMore(s, s', []);
    }
  }

  lemma StepHearsCurrent(dec: Decoders, cfg: SessionConfig, s: Session, t: Turn)
    requires MdInv(s.books)
    ensures HearsCurrent(s, MdSessions.Step(dec, cfg, s, t))
  {
    match t
    case Receive(m) => ReceiveHearsCurrent(dec, s, m);
    case Collect(now) => CollectHearsCurrent(cfg, s, now);
    case Request(now, _) =>
      RequestKeeps(s, |s.states|, now);
      HeardMore(s, MdSessions.Step(dec, cfg, s, t), []);
    case _ => HeardMore(s, MdSessions.Step(dec, cfg, s, t), []);
  }

  // ---------------------------------------------------------------- what the books show

  predicate RecordsSnapshot(dec: Decoders, record: Record, i: nat, snap: VenueFeed.Snapshot) {
    && record.SnapshotRecord? && record.instrument == i && dec.snapshot(i, record.raw).Some?
    && MdVerification.AsSnapshot(dec.snapshot(i, record.raw).value) == snap
  }

  /** The snapshot was fetched for instrument `i` and journaled. */
  ghost predicate Journaled(dec: Decoders, journal: seq<Record>, i: nat, snap: VenueFeed.Snapshot) {
    exists record :: record in journal && RecordsSnapshot(dec, record, i, snap)
  }

  ghost predicate LoadedFrom(dec: Decoders, h: VenueFeed.History, journal: seq<Record>, i: nat, s: SyncState,
                             loaded: Option<VenueFeed.Snapshot>) {
    && VenueFeed.FeedInv(h, VenueFeed.Feed(s, loaded))
    && (loaded.Some? ==> Journaled(dec, journal, i, loaded.value))
  }

  /** The sync has taken honest deltas and journaled snapshots alone. */
  ghost predicate FedFrom(dec: Decoders, h: VenueFeed.History, journal: seq<Record>, i: nat, s: SyncState) {
    exists loaded :: LoadedFrom(dec, h, journal, i, s, loaded)
  }

  ghost predicate BooksFed(dec: Decoders, v: MdVerification.Venue, s: Session) {
    && MdInv(s.books) && JournalReplay.DecodedHonestly(dec, s.results)
    && forall i :: 0 <= i < |s.books.syncs| ==> FedFrom(dec, v(i), s.journal, i, s.books.syncs[i])
  }

  ghost predicate HonestTurn(dec: Decoders, v: MdVerification.Venue, t: Turn) {
    t.Receive? && dec.message(t.message).Some? ==>
      VenueFeed.Honest(v(dec.message(t.message).value.instrument), dec.message(t.message).value.delta)
  }

  lemma JournalGrows(dec: Decoders, h: VenueFeed.History, journal: seq<Record>, longer: seq<Record>, i: nat,
                     s: SyncState)
    requires FedFrom(dec, h, journal, i, s) && journal <= longer
    ensures FedFrom(dec, h, longer, i, s)
  {
    var loaded :| LoadedFrom(dec, h, journal, i, s, loaded);
    if loaded.Some? {
      var record :| record in journal && RecordsSnapshot(dec, record, i, loaded.value);
      assert record in longer;
    }
    assert LoadedFrom(dec, h, longer, i, s, loaded);
  }

  lemma ResetFed(dec: Decoders, h: VenueFeed.History, journal: seq<Record>, i: nat, s: SyncState)
    requires SyncInv(s)
    ensures FedFrom(dec, h, journal, i, Reset(s))
  {
    ResetInv(s);
    assert LoadedFrom(dec, h, journal, i, Reset(s), None);
  }

  lemma DeltaFed(dec: Decoders, h: VenueFeed.History, journal: seq<Record>, i: nat, s: SyncState, d: ValidDelta,
                 s': SyncState)
    requires FedFrom(dec, h, journal, i, s) && VenueFeed.Honest(h, d) && KeptOrReset(OnDelta(s, d).0, s')
    ensures FedFrom(dec, h, journal, i, s')
  {
    var loaded :| LoadedFrom(dec, h, journal, i, s, loaded);
    VenueFeed.FeedStepKeeps(h, VenueFeed.Feed(s, loaded), VenueFeed.Deliver(d));
    assert LoadedFrom(dec, h, journal, i, OnDelta(s, d).0, loaded);
    ResetFed(dec, h, journal, i, OnDelta(s, d).0);
  }

  lemma SnapshotFed(dec: Decoders, h: VenueFeed.History, journal: seq<Record>, i: nat, s: SyncState, body: SnapshotBody,
                    record: Record)
    requires FedFrom(dec, h, journal, i, s) && RecordsSnapshot(dec, record, i, MdVerification.AsSnapshot(body))
    ensures SyncInv(s)
    ensures FedFrom(dec, h, journal + [record], i, OnSnapshot(s, body.seqNo, body.bids, body.asks).0)
  {
    JournalGrows(dec, h, journal, journal + [record], i, s);
    var loaded :| LoadedFrom(dec, h, journal + [record], i, s, loaded);
    var snap := MdVerification.AsSnapshot(body);
    VenueFeed.FeedStepKeeps(h, VenueFeed.Feed(s, loaded), VenueFeed.Load(snap));
    assert record in journal + [record];
    var f := VenueFeed.FeedStep(VenueFeed.Feed(s, loaded), VenueFeed.Load(snap));
    assert LoadedFrom(dec, h, journal + [record], i, f.sync, f.loaded);
  }

  /** The syncs are as they were or reset, and the journal has grown. */
  lemma KeptFed(dec: Decoders, v: MdVerification.Venue, s: Session, s': Session)
    requires BooksFed(dec, v, s) && MdInv(s'.books) && JournalReplay.DecodedHonestly(dec, s'.results)
    requires s.journal <= s'.journal && |s'.books.syncs| == |s.books.syncs|
    requires forall i :: 0 <= i < |s.books.syncs| ==> KeptOrReset(s.books.syncs[i], s'.books.syncs[i])
    ensures BooksFed(dec, v, s')
  {
    forall i | 0 <= i < |s'.books.syncs| ensures FedFrom(dec, v(i), s'.journal, i, s'.books.syncs[i]) {
      JournalGrows(dec, v(i), s.journal, s'.journal, i, s.books.syncs[i]);
      ResetFed(dec, v(i), s'.journal, i, s.books.syncs[i]);
    }
  }

  lemma ReceiveFed(dec: Decoders, cfg: SessionConfig, v: MdVerification.Venue, s: Session, m: seq<byte>)
    requires BooksFed(dec, v, s) && HonestTurn(dec, v, Receive(m))
    ensures BooksFed(dec, v, OnReceive(dec, s, m))
  {
    var s' := OnReceive(dec, s, m);
    BooksKept(dec, cfg, s, Receive(m));
    ReceiveHears(dec, s, m);
    if Attributable(dec, s, m) {
      var u := dec.message(m).value;
      MessageSyncs(dec, s.books, m, u);
      AttributedStates(dec, s, m);
      forall i | 0 <= i < |s'.books.syncs| ensures FedFrom(dec, v(i), s'.journal, i, s'.books.syncs[i]) {
        JournalGrows(dec, v(i), s.journal, s'.journal, i, s.books.syncs[i]);
        if i == u.instrument { DeltaFed(dec, v(i), s'.journal, i, s.books.syncs[i], u.delta, s'.books.syncs[i]); }
      }
    } else {
      KeptFed(dec, v, s, s');
    }
  }

  lemma SyncFed(dec: Decoders, cfg: SessionConfig, v: MdVerification.Venue, s: Session, now: int, r: JobResult)
    requires BooksFed(dec, v, s) && NextIsSync(s, r)
    ensures BooksFed(dec, v, OnCollect(cfg, s, now))
  {
    var s', i := OnCollect(cfg, s, now), r.job.instrument;
    CollectBooksKept(cfg, s, now);
    assert r in s.results;
    if r.outcome.FetchFailed? {
      CollectFails(cfg, s, now, r);
      KeptFed(dec, v, s, s');
    } else if i < |s.books.syncs| {
      CollectLoads(cfg, s, now, r);
      var record := SnapshotRecord(i, r.outcome.raw, r.outcome.fetchedAt);
      SnapshotFed(dec, v(i), s.journal, i, s.books.syncs[i], r.outcome.body, record);
      forall k | 0 <= k < |s'.books.syncs| ensures FedFrom(dec, v(k), s'.journal, k, s'.books.syncs[k]) {
        JournalGrows(dec, v(k), s.journal, s'.journal, k, s.books.syncs[k]);
      }
    } else {
      CollectLoads(cfg, s, now, r);
      KeptFed(dec, v, s, s');
    }
  }

  lemma CollectFed(dec: Decoders, cfg: SessionConfig, v: MdVerification.Venue, s: Session, now: int)
    requires BooksFed(dec, v, s)
    ensures BooksFed(dec, v, OnCollect(cfg, s, now))
  {
    if s.results != [] {
      var r := s.results[0];
      if NextIsSync(s, r) {
        SyncFed(dec, cfg, v, s, now, r);
      } else {
        CollectBooksKept(cfg, s, now);
        if r.outcome.Fetched? { VerificationSyncs(s.books, r.job.instrument, r.outcome.body); }
        KeptFed(dec, v, s, OnCollect(cfg, s, now));
      }
    }
  }

  lemma StepFed(dec: Decoders, cfg: SessionConfig, v: MdVerification.Venue, s: Session, t: Turn)
    requires BooksFed(dec, v, s) && HonestTurn(dec, v, t)
    ensures BooksFed(dec, v, MdSessions.Step(dec, cfg, s, t))
  {
    match t
    case Receive(m) => ReceiveFed(dec, cfg, v, s, m);
    case Collect(now) => CollectFed(dec, cfg, v, s, now);
    case Request(now, _) =>
      RequestKeeps(s, |s.states|, now);
      KeptFed(dec, v, s, MdSessions.Step(dec, cfg, s, t));
    case Schedule(now, alive) => ScheduleFed(dec, cfg, v, s, now, alive);
    case Disconnect => DownFed(dec, v, s);
    case _ => WorkerFed(dec, v, s, t);
  }

  lemma ScheduleFed(dec: Decoders, cfg: SessionConfig, v: MdVerification.Venue, s: Session, now: int, alive: bool)
    requires BooksFed(dec, v, s)
    ensures BooksFed(dec, v, OnSchedule(cfg, s, now, alive))
  {
    ScheduleBooksKept(cfg, s, now, alive);
    ScheduleRecords(cfg, s, now, alive);
    KeptFed(dec, v, s, OnSchedule(cfg, s, now, alive));
  }

  lemma ScheduleRecords(cfg: SessionConfig, s: Session, now: int, alive: bool)
    ensures var s' := OnSchedule(cfg, s, now, alive);
            s.journal <= s'.journal && s'.results == s.results && s'.books.syncs == s.books.syncs
  {
  }

  lemma DownFed(dec: Decoders, v: MdVerification.Venue, s: Session)
    requires BooksFed(dec, v, s)
    ensures BooksFed(dec, v, TakeAllDown(s))
  {
    ResetAllInv(s.books);
    KeptFed(dec, v, s, TakeAllDown(s));
  }

  lemma WorkerFed(dec: Decoders, v: MdVerification.Venue, s: Session, t: Turn)
    requires BooksFed(dec, v, s)
    ensures BooksFed(dec, v, WorkerStep(dec, s, t))
  {
    KeptFed(dec, v, s, WorkerStep(dec, s, t));
  }

  ghost predicate AllHonest(dec: Decoders, v: MdVerification.Venue, turns: seq<Turn>) {
    forall k :: 0 <= k < |turns| ==> HonestTurn(dec, v, turns[k])
  }

  lemma {:induction false} RunFed(dec: Decoders, cfg: SessionConfig, v: MdVerification.Venue, s: Session,
                                  turns: seq<Turn>)
    requires BooksFed(dec, v, s) && AllHonest(dec, v, turns)
    ensures BooksFed(dec, v, MdSessions.Run(dec, cfg, s, turns))
  {
    var n := |turns|;
    if n > 0 {
      RunFed(dec, cfg, v, s, turns[..n - 1]);
      StepFed(dec, cfg, v, MdSessions.Run(dec, cfg, s, turns[..n - 1]), turns[n - 1]);
    }
  }

  /** The book shows the venue's quantities at `at`, at every price that a snapshot fetched for it had right
      and that is not beyond its horizon. */
  ghost predicate ShowsVenue(dec: Decoders, h: VenueFeed.History, journal: seq<Record>, i: nat, b: BookState, at: int) {
    exists snap :: Journaled(dec, journal, i, snap) && VenueFeed.Tracks(h, snap, b, at)
  }

  /** Over every run of a session that starts with no book live, with every message honest: whatever turn comes
      next, each book that the handler hears in it is the current book of a live instrument, and shows the
      venue as of the last update applied. */
  lemma ReportsShowVenue(dec: Decoders, cfg: SessionConfig, v: MdVerification.Venue, start: MdState, turns: seq<Turn>,
                         t: Turn)
    requires MdInv(start) && forall i :: 0 <= i < |start.syncs| ==> !IsLive(start, i) && start.syncs[i].pending == []
    requires AllHonest(dec, v, turns) && HonestTurn(dec, v, t)
    ensures var s := MdSessions.Run(dec, cfg, New(start), turns);
            var s' := MdSessions.Step(dec, cfg, s, t);
            && HearsCurrent(s, s')
            && forall x :: x in Added(s, s') && x.HeardBook? ==>
                 ShowsVenue(dec, v(x.instrument), s'.journal, x.instrument, x.book,
                            s'.books.syncs[x.instrument].live.value)
  {
    NewFed(dec, v, start);
    RunFed(dec, cfg, v, New(start), turns);
    var s := MdSessions.Run(dec, cfg, New(start), turns);
    var s' := MdSessions.Step(dec, cfg, s, t);
    StepHearsCurrent(dec, cfg, s, t);
    StepFed(dec, cfg, v, s, t);
    forall x | x in Added(s, s') && x.HeardBook?
      ensures ShowsVenue(dec, v(x.instrument), s'.journal, x.instrument, x.book,
                         s'.books.syncs[x.instrument].live.value)
    {
      LiveShows(dec, v, s', x.instrument);
    }
  }

  lemma LiveShows(dec: Decoders, v: MdVerification.Venue, s: Session, i: nat)
    requires BooksFed(dec, v, s) && IsLive(s.books, i)
    ensures ShowsVenue(dec, v(i), s.journal, i, s.books.syncs[i].book, s.books.syncs[i].live.value)
  {
    var loaded :| LoadedFrom(dec, v(i), s.journal, i, s.books.syncs[i], loaded);
    assert Journaled(dec, s.journal, i, loaded.value);
  }

  lemma NewFed(dec: Decoders, v: MdVerification.Venue, start: MdState)
    requires MdInv(start) && forall i :: 0 <= i < |start.syncs| ==> !IsLive(start, i) && start.syncs[i].pending == []
    ensures BooksFed(dec, v, New(start))
  {
    forall i | 0 <= i < |start.syncs| ensures FedFrom(dec, v(i), [], i, start.syncs[i]) {
      assert !IsLive(start, i);
      assert LoadedFrom(dec, v(i), [], i, start.syncs[i], None);
    }
  }
}
