/** One session whose journal replays to something the session did not report, because it gave up on
    a verification, after its snapshot was loaded, without journaling that
    (crates/bowst-venue/src/binance/md.rs:612-618). */
module ReplayGap {
  import opened Common
  import opened Ladders
  import opened Books
  import opened BookSyncs
  import opened MdBooks
  import opened MdSessions
  import opened JournalReplay
  import MdVerification

  function Body5(): SnapshotBody {
    SnapshotBody(5, [], [])
  }

  function Body10(): SnapshotBody {
    SnapshotBody(10, [Level(1, 1)], [])
  }

  /** Two snapshots, one empty and of update 5, one of update 10 with a bid; and one message, which
      brings the one instrument from update 5 to update 10 without changing a price. */
  function GapDecoders(): Decoders {
    Decoders(m => Some(Update(0, 0, Delta(6, 10, []))),
             (i, raw) => if raw == [5] then Some(Body5()) else if raw == [10] then Some(Body10()) else None)
  }

  const CONFIG: SessionConfig := SessionConfig(1, Some(100), 10)

  function Fresh(): SyncState {
    SyncState(BookState(LadderState(Buy, 5, [], None), LadderState(Sell, 5, [], None)), None, [], SyncConfig(5, 5))
  }

  /** New books, as every session starts with. */
  function GapStart(): MdState {
    MdVerification.NewBooks(1, 5, SyncConfig(5, 5))
  }

  lemma GapStartIs()
    ensures GapStart() == MdState([Fresh()], Fresh(), None, false) && MdInv(GapStart())
  {
    assert GapStart().syncs == [Fresh()];
  }

  /** Ask for a snapshot, fetch it and go live; start a verification, fetch and load its snapshot, let
      it time out; receive a message. */
  const TURNS: seq<Turn> :=
    [Request(0, true), WorkerTakes, WorkerFetches([5], 0), Collect(0),
     Schedule(0, true), WorkerTakes, WorkerFetches([10], 0), Collect(0), Schedule(10, true),
     Receive([])]

  // ---------------------------------------------------------------- the snapshots

  lemma LoadsNothing(side: Side)
    ensures Load(LadderState(side, 5, [], None), []) == (LadderState(side, 5, [], None), Ok(()))
  {
  }

  lemma LoadsOne()
    ensures Load(LadderState(Buy, 5, [], None), [Level(1, 1)]) == (LadderState(Buy, 5, [Level(1, 1)], None), Ok(()))
  {
    var l := LadderState(Buy, 5, [], None);
    assert [Level(1, 1)][..0] == [];
    assert LoadPrefix(l, []) == LoadPrefix(Cleared(l), []);
  }

  function LiveAt5(): SyncState {
    Fresh().(live := Some(5))
  }

  /** The shadow book once the second snapshot is loaded. */
  function Loaded(): SyncState {
    var bids := LadderState(Buy, 5, [Level(1, 1)], None);
    Fresh().(book := BookState(bids, LadderState(Sell, 5, [], None)), live := Some(10))
  }

  lemma GoesLive()
    ensures OnSnapshot(Fresh(), 5, [], []) == (LiveAt5(), Ok(true))
  {
    LoadsNothing(Buy);
    LoadsNothing(Sell);
  }

  lemma ShadowLoads()
    ensures OnSnapshot(Fresh(), 10, [Level(1, 1)], []) == (Loaded(), Ok(true)) && SyncInv(Loaded())
  {
    LoadsOne();
    LoadsNothing(Sell);
  }

  // ---------------------------------------------------------------- the session, turn by turn

  const SYNC_JOB: Job := Job(0, 0, ToSync, 0)
  const VERIFY_JOB: Job := Job(0, 0, ToVerify, 0)

  function LiveBooks(): MdState {
    MdState([LiveAt5()], Fresh(), None, false)
  }

  /** The books while the verification waits for the live book to catch up. */
  function WaitingBooks(): MdState {
    MdState([LiveAt5()], Loaded(), Some(0), true)
  }

  function Asked(): Session {
    New(GapStart()).(jobs := [SYNC_JOB], states := [Requested])
  }

  function Live(): Session {
    New(GapStart()).(books := LiveBooks(), states := [NothingAsked], journal := [SnapshotRecord(0, [5], 0)],
                     heard := [HeardLive(0), HeardBook(0, Fresh().book, 0)])
  }

  function Started(): Session {
    Live().(books := LiveBooks().(verifying := Some(0)), verification := Some((0, 0)), nextVerification := 100,
            verifyCursor := 1, jobs := [VERIFY_JOB], journal := Live().journal + [VerifyStartRecord(0)])
  }

  function Waiting(): Session {
    Started().(jobs := [], books := WaitingBooks(), journal := Started().journal + [VerifySnapshotRecord(0, [10])])
  }

  function GivenUp(): Session {
    Waiting().(books := LiveBooks(), verification := None)
  }

  lemma Asks()
    ensures OnRequest(New(GapStart()), 0, true) == Asked()
  {
    GapStartIs();
    var s := New(GapStart());
    assert s.states == [NothingAsked];
    assert RequestUpTo(s, 0, 0) == s;
    assert s.states[0 := Requested] == [Requested];
  }

  /** The worker takes the one job and fetches for it. */
  lemma Fetches(s: Session, job: Job, raw: seq<byte>, body: SnapshotBody)
    requires s.jobs == [job] && s.inFlight == [] && s.results == []
             && GapDecoders().snapshot(job.instrument, raw) == Some(body)
    ensures WorkerStep(GapDecoders(), WorkerStep(GapDecoders(), s, WorkerTakes), WorkerFetches(raw, 0))
         == s.(jobs := [], results := [JobResult(job, Fetched(raw, body, 0))])
  {
    assert [job][1..] == [];
  }

  /** The session once the job of `s` has been fetched. */
  function Fetched1(s: Session, raw: seq<byte>, body: SnapshotBody): Session
    requires |s.jobs| == 1
  {
    s.(jobs := [], results := [JobResult(s.jobs[0], Fetched(raw, body, 0))])
  }

  lemma ComesLive()
    requires MdInv(Asked().books)
    ensures OnCollect(CONFIG, Fetched1(Asked(), [5], Body5()), 0) == Live()
  {
    GapStartIs();
    GoesLive();
    var s := Fetched1(Asked(), [5], Body5());
    assert s.results[1..] == [];
    assert [Fresh()][0 := LiveAt5()] == [LiveAt5()];
    assert [Requested][0 := NothingAsked] == [NothingAsked];
  }

  lemma Starts()
    ensures OnSchedule(CONFIG, Live(), 0, true) == Started()
  {
  }

  lemma Loads()
    requires MdInv(Started().books)
    ensures OnCollect(CONFIG, Fetched1(Started(), [10], Body10()), 0) == Waiting()
  {
    ShadowLoads();
    assert Fetched1(Started(), [10], Body10()).results[1..] == [];
  }

  lemma GivesUp()
    ensures OnSchedule(CONFIG, Waiting(), 10, true) == GivenUp()
  {
  }

  /** The session after the first `k` turns. */
  function After(k: nat): Session
    requires k <= |TURNS|
  {
    GapStartIs();
    Run(GapDecoders(), CONFIG, New(GapStart()), TURNS[..k])
  }

  lemma AfterOneMore(k: nat, t: Turn, s: Session)
    requires k < |TURNS| && TURNS[k] == t && After(k) == s
    ensures MdInv(s.books) && After(k + 1) == Step(GapDecoders(), CONFIG, s, t)
  {
    assert TURNS[..k + 1][..k] == TURNS[..k];
  }

  lemma AfterAsking()
    ensures After(1) == Asked()
  {
    AfterOneMore(0, Request(0, true), New(GapStart()));
    Asks();
  }

  /** Two turns of the worker. */
  lemma AfterWorker(k: nat, s: Session, job: Job, raw: seq<byte>, body: SnapshotBody)
    requires k + 2 <= |TURNS| && TURNS[k] == WorkerTakes && TURNS[k + 1] == WorkerFetches(raw, 0) && After(k) == s
    requires s.jobs == [job] && s.inFlight == [] && s.results == []
    requires GapDecoders().snapshot(job.instrument, raw) == Some(body)
    ensures After(k + 2) == Fetched1(s, raw, body)
  {
    AfterOneMore(k, WorkerTakes, s);
    AfterOneMore(k + 1, WorkerFetches(raw, 0), WorkerStep(GapDecoders(), s, WorkerTakes));
    Fetches(s, job, raw, body);
  }

  lemma AfterFirstFetch()
    ensures After(3) == Fetched1(Asked(), [5], Body5())
  {
    AfterAsking();
    AfterWorker(1, Asked(), SYNC_JOB, [5], Body5());
  }

  lemma AfterComingLive()
    ensures After(4) == Live()
  {
    AfterFirstFetch();
    AfterOneMore(3, Collect(0), Fetched1(Asked(), [5], Body5()));
    ComesLive();
  }

  lemma AfterStarting()
    ensures After(5) == Started()
  {
    AfterComingLive();
    AfterOneMore(4, Schedule(0, true), Live());
    Starts();
  }

  lemma AfterFetching()
    ensures After(7) == Fetched1(Started(), [10], Body10())
  {
    AfterStarting();
    AfterWorker(5, Started(), VERIFY_JOB, [10], Body10());
  }

  lemma AfterLoading()
    ensures After(8) == Waiting()
  {
    AfterFetching();
    AfterOneMore(7, Collect(0), Fetched1(Started(), [10], Body10()));
    Loads();
  }

  lemma AfterGivingUp()
    ensures After(9) == GivenUp() && MdInv(WaitingBooks())
  {
    AfterLoading();
    AfterOneMore(8, Schedule(10, true), Waiting());
    GivesUp();
  }

  // ---------------------------------------------------------------- what the journal replays to

  lemma ReplayNext(journal: seq<Record>, record: Record, books: MdState, heard: seq<Heard>)
    requires MdInv(GapStart()) && ReplayAll(GapDecoders(), GapStart(), journal) == Replayed(books, heard)
    ensures MdInv(books)
    ensures ReplayAll(GapDecoders(), GapStart(), journal + [record])
         == ReplayRecord(GapDecoders(), Replayed(books, heard), record)
  {
    ReplayAppend(GapDecoders(), GapStart(), journal, record);
  }

  lemma ReplayGoesLive()
    requires MdInv(GapStart())
    ensures ReplayAll(GapDecoders(), GapStart(), Live().journal) == Replayed(LiveBooks(), Live().heard)
  {
    GapStartIs();
    GoesLive();
    ReplayNext([], SnapshotRecord(0, [5], 0), GapStart(), []);
    assert [] + [SnapshotRecord(0, [5], 0)] == Live().journal;
    assert [Fresh()][0 := LiveAt5()] == [LiveAt5()];
  }

  lemma ReplayLoads()
    requires MdInv(Started().books)
    ensures ReplayRecord(GapDecoders(), Replayed(Started().books, Live().heard), VerifySnapshotRecord(0, [10]))
         == Replayed(WaitingBooks(), Live().heard)
  {
    ShadowLoads();
  }

  lemma ReplayWaits()
    requires MdInv(GapStart())
    ensures ReplayAll(GapDecoders(), GapStart(), Waiting().journal) == Replayed(WaitingBooks(), Live().heard)
  {
    ReplayGoesLive();
    ReplayNext(Live().journal, VerifyStartRecord(0), LiveBooks(), Live().heard);
    ReplayNext(Started().journal, VerifySnapshotRecord(0, [10]), Started().books, Live().heard);
    ReplayLoads();
  }

  /** The message completes the verification the session gave up on, and its books differ. */
  lemma MessageContradicts()
    requires MdInv(WaitingBooks())
    ensures Contradicts(GapDecoders(), LiveBooks(), WaitingBooks(), [])
  {
    var d := Delta(6, 10, []);
    assert OnDelta(LiveAt5(), d) == (Fresh().(live := Some(10)), Ok(DeltaApplied));
    assert OnDelta(Loaded(), d) == (Loaded(), Ok(Stale)) by { ShadowLoads(); }
    assert [LiveAt5()][0 := Fresh().(live := Some(10))] == [Fresh().(live := Some(10))];
    var fed := MdState([Fresh().(live := Some(10))], Loaded(), Some(0), true);
    assert Feed(WaitingBooks(), 0, d) == (fed, Ok(DeltaApplied));
    assert NthBest(Fresh().book.bids, 0) != NthBest(Loaded().book.bids, 0);
    assert Compare(Fresh().book, Loaded().book, 10).Some?;
  }

  lemma EverDoes()
    requires MdInv(GapStart())
    ensures EverContradicts(GapDecoders(), CONFIG, GapStart(), TURNS)
  {
    AfterGivingUp();
    ReplayWaits();
    MessageContradicts();
    assert ContradictsAt(GapDecoders(), GapStart(), After(9), TURNS[9]);
  }

  /** From new books, over turns any session can take: the last message contradicts, and the replay of
      the journal does not report what the session did. */
  lemma ReplayCanDiffer()
    ensures MdInv(GapStart()) && GapStart().verifying.None? && forall i :: !IsLive(GapStart(), i)
    ensures EverContradicts(GapDecoders(), CONFIG, GapStart(), TURNS)
    ensures var live := Run(GapDecoders(), CONFIG, New(GapStart()), TURNS);
            ReplayAll(GapDecoders(), GapStart(), live.journal).heard != live.heard
  {
    GapStartIs();
    EverDoes();
    ReplayExactIff(GapDecoders(), CONFIG, GapStart(), TURNS);
  }
}
