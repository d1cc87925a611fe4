/** The session and its snapshot worker, taking turns in any order
    (crates/bowst-venue/src/binance/md.rs): at most one request per instrument is outstanding on a
    connection, none for a live instrument, and no snapshot fetched for an earlier connection is
    ever applied. */
module SessionWorker {
  import opened Common
  import opened Ladders
  import opened BookSyncs
  import opened MdBooks
  import opened MdSessions

  function ResultJobs(results: seq<JobResult>): seq<Job> {
    if results == [] then [] else [results[0].job] + ResultJobs(results[1..])
  }

  /** Every request on its way, oldest first: answered, being fetched, or queued. */
  function Pipeline(s: Session): seq<Job> {
    ResultJobs(s.results) + s.inFlight + s.jobs
  }

  predicate Asks(job: Job, i: nat, epoch: nat) {
    job.instrument == i && job.purpose.ToSync? && job.askedIn == epoch
  }

  /** How many requests to synchronise instrument `i` were made on connection `epoch`. */
  function Outstanding(jobs: seq<Job>, i: nat, epoch: nat): nat {
    if jobs == [] then 0
    else (if Asks(jobs[0], i, epoch) then 1 else 0) + Outstanding(jobs[1..], i, epoch)
  }

  lemma {:induction false} OutstandingSum(a: seq<Job>, b: seq<Job>, i: nat, epoch: nat)
    ensures Outstanding(a + b, i, epoch) == Outstanding(a, i, epoch) + Outstanding(b, i, epoch)
    decreases |a|
  {
    if a == [] {
      assert a + b == b;
    } else {
      assert (a + b)[1..] == a[1..] + b;
      OutstandingSum(a[1..], b, i, epoch);
    }
  }

  lemma {:induction false} NoneFromTheFuture(jobs: seq<Job>, i: nat, epoch: nat)
    requires forall j :: j in jobs ==> j.askedIn < epoch
    ensures Outstanding(jobs, i, epoch) == 0
    decreases |jobs|
  {
    if jobs != [] {
      assert jobs[0] in jobs;
      NoneFromTheFuture(jobs[1..], i, epoch);
    }
  }

  lemma {:induction false} ResultJobsAppend(results: seq<JobResult>, r: JobResult)
    ensures ResultJobs(results + [r]) == ResultJobs(results) + [r.job]
    decreases |results|
  {
    if results == [] {
      assert results + [r] == [r];
    } else {
      assert (results + [r])[1..] == results[1..] + [r];
      ResultJobsAppend(results[1..], r);
    }
  }

  /** `generation` is the true count of reconnects wrapped to 64 bits, in the session and in every
      request. */
  ghost predicate Stamped(s: Session) {
    && s.generation == s.epoch % TWO_64
    && forall j :: j in Pipeline(s) ==> j.askedIn <= s.epoch && j.generation == j.askedIn % TWO_64
  }

  /** The request state of each instrument counts its outstanding requests exactly, and an
      instrument with a request outstanding is not live. */
  ghost predicate OneEach(books: MdState, states: seq<SnapshotState>, pipeline: seq<Job>, epoch: nat) {
    && |states| == |books.syncs|
    && forall i :: 0 <= i < |states| ==>
         && Outstanding(pipeline, i, epoch) == (if states[i] == Requested then 1 else 0)
         && (states[i] == Requested ==> !IsLive(books, i))
  }

  ghost predicate WorkerInv(s: Session) {
    && MdInv(s.books)
    && |s.inFlight| <= 1
    && Stamped(s)
    && OneEach(s.books, s.states, Pipeline(s), s.epoch)
  }

  // ---------------------------------------------------------------- what makes a book live

  /** A delta never brings a book live, and reports an error or an application only for a live one. */
  lemma DeltaLiveness(s: SyncState, d: Delta)
    requires SyncInv(s)
    ensures OnDelta(s, d).0.live.Some? ==> s.live.Some?
    ensures OnDelta(s, d).1.Err? || OnDelta(s, d).1 == Ok(DeltaApplied) ==> s.live.Some?
  {
  }

  lemma FeedLiveness(s: MdState, i: nat, d: Delta)
    requires MdInv(s) && i < |s.syncs|
    ensures var (fed, r) := Feed(s, i, d);
            && |fed.syncs| == |s.syncs| && (forall k :: IsLive(fed, k) ==> IsLive(s, k))
            && (r.Err? || r == Ok(DeltaApplied) ==> IsLive(s, i))
  {
    DeltaLiveness(s.syncs[i], d);
  }

  lemma SettleLiveness(s: MdState)
    ensures |Settle(s).0.syncs| == |s.syncs| && forall k :: IsLive(Settle(s).0, k) ==> IsLive(s, k)
  {
  }

  /** A message brings no book live, and takes down only a live one. */
  lemma MessageLiveness(dec: Decoders, s: MdState, m: seq<byte>)
    requires MdInv(s)
    ensures var (s', outcome) := ApplyMessage(dec, s, m);
            && |s'.syncs| == |s.syncs|
            && (forall i :: IsLive(s', i) ==> IsLive(s, i))
            && (outcome.Some? && outcome.value.WentDown? ==> IsLive(s, outcome.value.instrument))
  {
    var u := dec.message(m);
    if u.Some? && u.value.instrument < |s.syncs| {
      FeedLiveness(s, u.value.instrument, u.value.delta);
      SettleLiveness(Feed(s, u.value.instrument, u.value.delta).0);
    }
  }

  /** Only the instrument a snapshot is for can go live on it. */
  lemma SnapshotLiveness(s: MdState, i: nat, body: SnapshotBody, time: int)
    requires MdInv(s)
    ensures |TakeSnapshot(s, i, body, time).0.syncs| == |s.syncs|
    ensures forall k :: k != i && IsLive(TakeSnapshot(s, i, body, time).0, k) ==> IsLive(s, k)
  {
  }

  /** Verification brings no book live, and takes down only a live one. */
  lemma VerificationLiveness(s: MdState, i: nat, body: SnapshotBody)
    requires MdInv(s)
    ensures var (s', verdict, _) := TakeVerificationSnapshot(s, i, body);
            && |s'.syncs| == |s.syncs|
            && (forall k :: IsLive(s', k) ==> IsLive(s, k))
            && (verdict.Differs? ==> IsLive(s, i))
  {
  }

  // ---------------------------------------------------------------- pieces of a turn

  lemma BooksChange(books: MdState, books': MdState, states: seq<SnapshotState>, pipeline: seq<Job>, epoch: nat)
    requires OneEach(books, states, pipeline, epoch) && |books'.syncs| == |books.syncs|
    requires forall i :: IsLive(books', i) ==> IsLive(books, i)
    ensures OneEach(books', states, pipeline, epoch)
  {
  }

  /** A live instrument had no request, so its state may be set to anything but `Requested`. */
  lemma StateChange(books: MdState, states: seq<SnapshotState>, pipeline: seq<Job>, epoch: nat, i: nat,
                    state: SnapshotState)
    requires OneEach(books, states, pipeline, epoch) && IsLive(books, i) && state != Requested
    ensures OneEach(books, SetState(states, i, state), pipeline, epoch)
  {
  }

  /** A new request changes the count of the instrument it is for, and of no other. */
  lemma JobAdded(pipeline: seq<Job>, job: Job, i: nat, epoch: nat)
    ensures Outstanding(pipeline + [job], i, epoch)
            == Outstanding(pipeline, i, epoch) + if Asks(job, i, epoch) then 1 else 0
  {
    OutstandingSum(pipeline, [job], i, epoch);
  }

  lemma RequestAdded(books: MdState, states: seq<SnapshotState>, pipeline: seq<Job>, epoch: nat, i: nat, job: Job)
    requires OneEach(books, states, pipeline, epoch) && Asks(job, i, epoch)
    requires i < |states| && states[i] != Requested && !IsLive(books, i)
    ensures OneEach(books, states[i := Requested], pipeline + [job], epoch)
  {
    forall k: nat { JobAdded(pipeline, job, k, epoch); }
  }

  lemma VerifyRequestAdded(books: MdState, states: seq<SnapshotState>, pipeline: seq<Job>, epoch: nat, job: Job)
    requires OneEach(books, states, pipeline, epoch) && job.purpose.ToVerify?
    ensures OneEach(books, states, pipeline + [job], epoch)
  {
    forall k: nat { JobAdded(pipeline, job, k, epoch); }
  }

  /** Whoever was first in line is answered: if it asked to synchronise `i` on this connection, `i`
      has nothing outstanding any more. */
  lemma Answered(books: MdState, states: seq<SnapshotState>, pipeline: seq<Job>, epoch: nat)
    requires OneEach(books, states, pipeline, epoch) && pipeline != []
    ensures var job := pipeline[0];
            if job.purpose.ToSync? && job.askedIn == epoch && job.instrument < |states| then
              states[job.instrument] == Requested && !IsLive(books, job.instrument)
            else OneEach(books, states, pipeline[1..], epoch)
    ensures var job := pipeline[0];
            job.purpose.ToSync? && job.askedIn == epoch ==>
              forall state :: state != Requested ==>
                OneEach(books, SetState(states, job.instrument, state), pipeline[1..], epoch)
  {
  }

  /** A request made now goes to the end of the line, stamped like the session. */
  lemma JobQueued(s: Session, job: Job)
    requires Stamped(s) && job.generation == s.generation && job.askedIn == s.epoch
    ensures Pipeline(s.(jobs := s.jobs + [job])) == Pipeline(s) + [job]
    ensures Stamped(s.(jobs := s.jobs + [job]))
  {
    assert Pipeline(s.(jobs := s.jobs + [job])) == Pipeline(s) + [job];
  }

  lemma {:induction false} RequestInv(s: Session, n: nat, now: int)
    requires n <= |s.states| && OneEach(s.books, s.states, Pipeline(s), s.epoch) && Stamped(s)
    ensures var r := RequestUpTo(s, n, now);
            OneEach(r.books, r.states, Pipeline(r), r.epoch) && Stamped(r)
  {
    if n > 0 {
      RequestInv(s, n - 1, now);
      RequestKeeps(s, n - 1, now);
      var before := RequestUpTo(s, n - 1, now);
      if Wanted(before, n - 1, now) {
        var job := Job(n - 1, s.generation, ToSync, s.epoch);
        JobQueued(before, job);
        RequestAdded(before.books, before.states, Pipeline(before), s.epoch, n - 1, job);
      }
    }
  }

  // ---------------------------------------------------------------- every turn

  lemma DownInv(s: Session)
    requires WorkerInv(s)
    ensures WorkerInv(TakeAllDown(s))
  {
    ResetAllInv(s.books);
    var line, next := Pipeline(s), s.epoch + 1;
    forall i: nat ensures Outstanding(line, i, next) == 0 { NoneFromTheFuture(line, i, next); }
    assert Pipeline(TakeAllDown(s)) == line;
  }

  lemma ReceiveInv(dec: Decoders, s: Session, m: seq<byte>)
    requires WorkerInv(s)
    ensures WorkerInv(OnReceive(dec, s, m))
  {
    ApplyMessageInv(dec, s.books, m);
    MessageLiveness(dec, s.books, m);
    var (books, outcome) := ApplyMessage(dec, s.books, m);
    BooksChange(s.books, books, s.states, Pipeline(s), s.epoch);
    if outcome.None? {
      DownInv(s.(journal := s.journal + [MessageRecord(m)], books := books));
    } else if outcome.value.WentDown? {
      StateChange(s.books, s.states, Pipeline(s), s.epoch, outcome.value.instrument, NothingAsked);
      BooksChange(s.books, books, SetState(s.states, outcome.value.instrument, NothingAsked), Pipeline(s), s.epoch);
    }
  }

  /** Only `i`, which has no request outstanding, may have gone live. */
  lemma BooksChangeAt(books: MdState, books': MdState, states: seq<SnapshotState>, pipeline: seq<Job>,
                      epoch: nat, i: nat)
    requires OneEach(books, states, pipeline, epoch) && |books'.syncs| == |books.syncs|
    requires forall k :: k != i && IsLive(books', k) ==> IsLive(books, k)
    requires i < |states| ==> states[i] != Requested
    ensures OneEach(books', states, pipeline, epoch)
  {
  }

  lemma SyncResultInv(cfg: SessionConfig, s: Session, r: JobResult, now: int)
    requires MdInv(s.books) && |s.inFlight| <= 1 && Stamped(s)
    requires r.job.purpose.ToSync? && r.job.askedIn == s.epoch
    requires OneEach(s.books, s.states, [r.job] + Pipeline(s), s.epoch)
    ensures WorkerInv(ApplySnapshot(cfg, s, r, now))
  {
    var i := r.job.instrument;
    var line := [r.job] + Pipeline(s);
    assert line[1..] == Pipeline(s);
    Answered(s.books, s.states, line, s.epoch);
    var s' := ApplySnapshot(cfg, s, r, now);
    assert OneEach(s.books, s'.states, Pipeline(s), s.epoch);
    if r.outcome.Fetched? {
      TakeSnapshotInv(s.books, i, r.outcome.body, r.outcome.fetchedAt);
      SnapshotLiveness(s.books, i, r.outcome.body, r.outcome.fetchedAt);
      BooksChangeAt(s.books, s'.books, s'.states, Pipeline(s), s.epoch, i);
    }
  }

  lemma VerifyResultInv(s: Session, r: JobResult)
    requires WorkerInv(s)
    ensures WorkerInv(ApplyVerificationSnapshot(s, r))
  {
    var i := r.job.instrument;
    ShadowResetInv(s.books);
    if r.outcome.Fetched? {
      var (books, verdict, _) := TakeVerificationSnapshot(s.books, i, r.outcome.body);
      TakeVerificationSnapshotInv(s.books, i, r.outcome.body);
      VerificationLiveness(s.books, i, r.outcome.body);
      BooksChange(s.books, books, s.states, Pipeline(s), s.epoch);
      if verdict.Differs? {
        StateChange(s.books, s.states, Pipeline(s), s.epoch, i, NothingAsked);
        BooksChange(s.books, books, SetState(s.states, i, NothingAsked), Pipeline(s), s.epoch);
      }
    }
  }

  /** A result carries the session's generation exactly when it was asked for on this connection:
      the 64-bit counter has not come round within the life of a request. */
  lemma GenerationTells(s: Session, job: Job)
    requires Stamped(s) && s.epoch < TWO_64 && job in Pipeline(s)
    ensures job.generation == s.generation <==> job.askedIn == s.epoch
  {
  }

  lemma CollectInv(cfg: SessionConfig, s: Session, now: int)
    requires WorkerInv(s) && s.epoch < TWO_64
    ensures WorkerInv(OnCollect(cfg, s, now))
  {
    if s.results != [] {
      var r := s.results[0];
      var s' := s.(results := s.results[1..]);
      assert Pipeline(s) == [r.job] + Pipeline(s');
      assert Pipeline(s)[0] == r.job && Pipeline(s)[1..] == Pipeline(s');
      assert forall j :: j in Pipeline(s') ==> j in Pipeline(s);
      GenerationTells(s, r.job);
      Answered(s.books, s.states, Pipeline(s), s.epoch);
      if r.job.generation == s.generation {
        if r.job.purpose.ToSync? { SyncResultInv(cfg, s', r, now); } else { VerifyResultInv(s', r); }
      }
    }
  }

  /** Scheduling touches the books only by starting or ending a verification, and sends at most one
      request, to verify. */
  lemma ScheduleShape(cfg: SessionConfig, s: Session, now: int, alive: bool)
    ensures var s' := OnSchedule(cfg, s, now, alive);
            && s'.books.syncs == s.books.syncs && s'.states == s.states && s'.epoch == s.epoch
            && s'.generation == s.generation && s'.results == s.results && s'.inFlight == s.inFlight
            && (s'.jobs == s.jobs || exists i: nat :: s'.jobs == s.jobs + [Job(i, s.generation, ToVerify, s.epoch)])
  {
  }

  lemma ScheduleInv(cfg: SessionConfig, s: Session, now: int, alive: bool)
    requires WorkerInv(s)
    ensures WorkerInv(OnSchedule(cfg, s, now, alive))
  {
    ScheduleBooksKept(cfg, s, now, alive);
    ScheduleShape(cfg, s, now, alive);
    var s' := OnSchedule(cfg, s, now, alive);
    BooksChange(s.books, s'.books, s.states, Pipeline(s), s.epoch);
    if s'.jobs != s.jobs {
      var i: nat :| s'.jobs == s.jobs + [Job(i, s.generation, ToVerify, s.epoch)];
      var job := Job(i, s.generation, ToVerify, s.epoch);
      JobQueued(s, job);
      VerifyRequestAdded(s'.books, s.states, Pipeline(s), s.epoch, job);
      assert Pipeline(s') == Pipeline(s.(jobs := s.jobs + [job]));
    }
  }

  /** The worker moves requests along without changing their order. */
  lemma WorkerKeepsPipeline(dec: Decoders, s: Session, t: Turn)
    requires |s.inFlight| <= 1
    ensures Pipeline(WorkerStep(dec, s, t)) == Pipeline(s)
    ensures |WorkerStep(dec, s, t).inFlight| <= 1
  {
    var s' := WorkerStep(dec, s, t);
    if s'.results != s.results {
      ResultJobsAppend(s.results, s'.results[|s.results|]);
    }
  }

  lemma StepInv(dec: Decoders, cfg: SessionConfig, s: Session, t: Turn)
    requires WorkerInv(s) && s.epoch < TWO_64
    ensures WorkerInv(MdSessions.Step(dec, cfg, s, t))
  {
    match t
    case Receive(m) => ReceiveInv(dec, s, m);
    case Collect(now) => CollectInv(cfg, s, now);
    case Request(now, _) =>
      RequestInv(s, |s.states|, now);
      RequestKeeps(s, |s.states|, now);
    case Schedule(now, alive) => ScheduleInv(cfg, s, now, alive);
    case Disconnect => DownInv(s);
    case _ => WorkerKeepsPipeline(dec, s, t);
  }

  lemma CollectKeepsEpoch(cfg: SessionConfig, s: Session, now: int)
    requires MdInv(s.books)
    ensures OnCollect(cfg, s, now).epoch == s.epoch
  {
  }

  lemma ReceiveGrowsEpoch(dec: Decoders, s: Session, message: seq<byte>)
    requires MdInv(s.books)
    ensures s.epoch <= OnReceive(dec, s, message).epoch
  {
  }

  lemma EpochGrows(dec: Decoders, cfg: SessionConfig, s: Session, t: Turn)
    requires MdInv(s.books)
    ensures s.epoch <= MdSessions.Step(dec, cfg, s, t).epoch
  {
    match t
    case Receive(message) => ReceiveGrowsEpoch(dec, s, message);
    case Collect(now) => CollectKeepsEpoch(cfg, s, now);
    case Request(now, _) => RequestKeeps(s, |s.states|, now);
    case _ =>
  }

  lemma {:induction false} RunInv(dec: Decoders, cfg: SessionConfig, books: MdState, turns: seq<Turn>)
    requires MdInv(books) && (forall i :: !IsLive(books, i))
    requires MdSessions.Run(dec, cfg, New(books), turns).epoch < TWO_64
    ensures WorkerInv(MdSessions.Run(dec, cfg, New(books), turns))
  {
    var n := |turns|;
    if n > 0 {
      var before := MdSessions.Run(dec, cfg, New(books), turns[..n - 1]);
      EpochGrows(dec, cfg, before, turns[n - 1]);
      RunInv(dec, cfg, books, turns[..n - 1]);
      StepInv(dec, cfg, before, turns[n - 1]);
    }
  }

  /** In every interleaving of session and worker (with fewer than 2^64 reconnects): each instrument
      has at most one request outstanding on the current connection, exactly when its state says so,
      and then it is not live; and the result about to be collected is used only if it was asked
      for on the current connection. */
  lemma OneRequestEach(dec: Decoders, cfg: SessionConfig, books: MdState, turns: seq<Turn>)
    requires MdInv(books) && (forall i :: !IsLive(books, i))
    requires MdSessions.Run(dec, cfg, New(books), turns).epoch < TWO_64
    ensures var s := MdSessions.Run(dec, cfg, New(books), turns);
            && |s.states| == |s.books.syncs|
            && (forall i :: 0 <= i < |s.states| ==>
                  && Outstanding(Pipeline(s), i, s.epoch) <= 1
                  && (Outstanding(Pipeline(s), i, s.epoch) == 1 <==> s.states[i] == Requested)
                  && (s.states[i] == Requested ==> !IsLive(s.books, i)))
            && (s.results != [] ==>
                  (s.results[0].job.generation == s.generation <==> s.results[0].job.askedIn == s.epoch))
  {
    RunInv(dec, cfg, books, turns);
    var s := MdSessions.Run(dec, cfg, New(books), turns);
    if s.results != [] {
      assert Pipeline(s)[0] == s.results[0].job;
      GenerationTells(s, s.results[0].job);
    }
  }
}
