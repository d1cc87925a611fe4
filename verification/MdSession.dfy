/** The bookkeeping of a market-data session and its snapshot worker
    (crates/bowst-venue/src/binance/md.rs): which snapshots are asked for, which are still wanted
    when they arrive, what is journaled and in which order, and what the handler hears.

    The session and the worker exchange jobs and results through two queues and take turns in any
    order. Time, received bytes and fetched bodies come in with each turn. */
module MdSessions {
  import opened Common
  import opened Ladders
  import opened BookSyncs
  import opened MdBooks

  datatype SessionConfig = SessionConfig(snapshotRetry: int, verifyEvery: Option<int>, verifyTimeout: int)

  datatype SnapshotState = NothingAsked | Requested | RetryAt(at: int)

  datatype Purpose = ToSync | ToVerify

  /** A snapshot request. `generation` is the session's wrapping counter; `askedIn` is in
      the model only: the true number of reconnects before the request. */
  datatype Job = Job(instrument: nat, generation: u64, purpose: Purpose, askedIn: nat)

  datatype Fetch = Fetched(raw: seq<byte>, body: SnapshotBody, fetchedAt: int) | FetchFailed(retryAfter: Option<int>)

  datatype JobResult = JobResult(job: Job, outcome: Fetch)

  /** What is journaled, as far as replay looks at it. */
  datatype Record =
    | MessageRecord(raw: seq<byte>)
    | SnapshotRecord(instrument: nat, raw: seq<byte>, wall: int)
    | VerifyStartRecord(instrument: nat)
    | VerifySnapshotRecord(instrument: nat, raw: seq<byte>)
    | ResetRecord
    | StatusRecord

  /** `verification` is the instrument being verified and when that started. `epoch` is in the
      model only: the true number of reconnects so far. */
  datatype Session = Session(
    books: MdState, states: seq<SnapshotState>, generation: u64, epoch: nat,
    verification: Option<(nat, int)>, nextVerification: int, verifyCursor: nat,
    jobs: seq<Job>, inFlight: seq<Job>, results: seq<JobResult>,
    journal: seq<Record>, heard: seq<Heard>)

  datatype Turn =
    | Receive(message: seq<byte>)
    | Collect(now: int)
    | Request(now: int, workerAlive: bool)
    | Schedule(now: int, workerAlive: bool)
    | Disconnect
    | WorkerTakes
    | WorkerFetches(raw: seq<byte>, fetchedAt: int)
    | WorkerFails(retryAfter: Option<int>)

  // ---------------------------------------------------------------- the session's turns

  function SetState(states: seq<SnapshotState>, i: nat, state: SnapshotState): seq<SnapshotState> {
    if i < |states| then states[i := state] else states
  }

  function NoRequests(n: nat): seq<SnapshotState> {
    seq(n, i => NothingAsked)
  }

  /** `u64::wrapping_add` of one. */
  function NextGeneration(g: u64): u64 {
    if g == U64_MAX then 0 else g + 1
  }

  function TakeAllDown(s: Session): Session {
    s.(journal := s.journal + [ResetRecord],
       generation := NextGeneration(s.generation), epoch := s.epoch + 1,
       books := ResetAll(s.books), verification := None,
       states := NoRequests(|s.states|))
  }

  /** Reports what a message did, notes that a verification ended on it, and schedules a resync of
      a book that went down. */
  function AfterApply(s: Session, outcome: Outcome): Session {
    var heard := s.heard + Report(s.books, outcome);
    var ended := s.verification.Some? && s.books.verifying != Some(s.verification.value.0);
    s.(heard := heard,
       verification := if ended then None else s.verification,
       states := if outcome.WentDown? then SetState(s.states, outcome.instrument, NothingAsked) else s.states)
  }

  function OnReceive(dec: Decoders, s: Session, message: seq<byte>): Session
    requires MdInv(s.books)
  {
    var s1 := s.(journal := s.journal + [MessageRecord(message)]);
    var (books, outcome) := ApplyMessage(dec, s.books, message);
    if outcome.None? then TakeAllDown(s1.(books := books)) else AfterApply(s1.(books := books), outcome.value)
  }

  predicate Wanted(s: Session, i: nat, now: int)
    requires i < |s.states|
  {
    !IsLive(s.books, i) && match s.states[i]
                           case NothingAsked => true
                           case RetryAt(at) => now >= at
                           case Requested => false
  }

  /** Asks for a snapshot of each of the first `n` instruments that needs one. */
  function RequestUpTo(s: Session, n: nat, now: int): (r: Session)
    requires n <= |s.states|
    ensures |r.states| == |s.states|
  {
    if n == 0 then s
    else
      var s' := RequestUpTo(s, n - 1, now);
      if Wanted(s', n - 1, now) then
        s'.(jobs := s'.jobs + [Job(n - 1, s.generation, ToSync, s.epoch)], states := s'.states[n - 1 := Requested])
      else s'
  }

  function OnRequest(s: Session, now: int, workerAlive: bool): Session {
    if workerAlive then RequestUpTo(s, |s.states|, now) else s
  }

  function ApplySnapshot(cfg: SessionConfig, s: Session, r: JobResult, now: int): Session
    requires MdInv(s.books)
  {
    var i := r.job.instrument;
    match r.outcome
    case FetchFailed(retryAfter) =>
      var wait := if retryAfter.Some? then Max(retryAfter.value, cfg.snapshotRetry) else cfg.snapshotRetry;
      s.(states := SetState(s.states, i, RetryAt(now + wait)), journal := s.journal + [StatusRecord])
    case Fetched(raw, body, fetchedAt) =>
      var (books, outcome, heard) := TakeSnapshot(s.books, i, body, fetchedAt);
      s.(journal := s.journal + [SnapshotRecord(i, raw, fetchedAt)], books := books, heard := s.heard + heard,
         states := SetState(s.states, i, if outcome.Rejected? then RetryAt(now + cfg.snapshotRetry) else NothingAsked))
  }

  function ApplyVerificationSnapshot(s: Session, r: JobResult): Session
    requires MdInv(s.books)
  {
    if s.verification.None? || s.verification.value.0 != r.job.instrument
       || s.books.verifying != Some(r.job.instrument) then s
    else
      var i := r.job.instrument;
      match r.outcome
      case FetchFailed(_) => s.(books := CancelVerification(s.books), verification := None)
      case Fetched(raw, body, _) =>
        var (books, verdict, heard) := TakeVerificationSnapshot(s.books, i, body);
        s.(journal := s.journal + [VerifySnapshotRecord(i, raw)], books := books, heard := s.heard + heard,
           verification := if verdict.VerifyPending? then s.verification else None,
           states := if verdict.Differs? then SetState(s.states, i, NothingAsked) else s.states)
  }

  /** Takes one result: dropped if it was asked for on a previous connection. */
  function OnCollect(cfg: SessionConfig, s: Session, now: int): Session
    requires MdInv(s.books)
  {
    if s.results == [] then s
    else
      var r := s.results[0];
      var s' := s.(results := s.results[1..]);
      if r.job.generation != s.generation then s'
      else if r.job.purpose.ToSync? then ApplySnapshot(cfg, s', r, now)
      else ApplyVerificationSnapshot(s', r)
  }

  /** The first of `count` instruments from `cursor` on (in turn) whose book is live. */
  function NextLive(books: MdState, cursor: nat, step: nat, count: nat): Option<nat>
    requires step <= count
    decreases count - step
  {
    if step == count then None
    else if IsLive(books, (cursor + step) % count) then Some((cursor + step) % count)
    else NextLive(books, cursor, step + 1, count)
  }

  predicate TimedOut(cfg: SessionConfig, s: Session, now: int) {
    cfg.verifyEvery.Some? && s.verification.Some? && now - s.verification.value.1 >= cfg.verifyTimeout
  }

  /** Starts verifying instrument `i`. */
  function Begin(s: Session, i: nat, now: int, workerAlive: bool): Session {
    var started := StartVerification(s.books, i).0;
    var s' := s.(journal := s.journal + [VerifyStartRecord(i)], verifyCursor := i + 1);
    if workerAlive then
      s'.(books := started, jobs := s'.jobs + [Job(i, s.generation, ToVerify, s.epoch)],
          verification := Some((i, now)))
    else s'.(books := CancelVerification(started))
  }

  /** Starts the next verification when due, and abandons one that has taken too long. Abandoning
      is not journaled. */
  function OnSchedule(cfg: SessionConfig, s: Session, now: int, workerAlive: bool): Session {
    if cfg.verifyEvery.None? then s
    else if s.verification.Some? && !TimedOut(cfg, s, now) then s
    else
      var s1 := if s.verification.Some? then s.(books := CancelVerification(s.books), verification := None) else s;
      if now < s1.nextVerification then s1
      else
        var s2 := s1.(nextVerification := now + cfg.verifyEvery.value);
        match NextLive(s1.books, s1.verifyCursor, 0, |s1.states|)
        case None => s2
        case Some(i) => Begin(s2, i, now, workerAlive)
  }

  // ---------------------------------------------------------------- the worker's turns

  function WorkerStep(dec: Decoders, s: Session, t: Turn): Session {
    match t
    case WorkerTakes =>
      if s.inFlight == [] && s.jobs != [] then s.(inFlight := [s.jobs[0]], jobs := s.jobs[1..]) else s
    case WorkerFetches(raw, fetchedAt) =>
      if s.inFlight == [] then s
      else
        var job := s.inFlight[0];
        var outcome := match dec.snapshot(job.instrument, raw)
                       case Some(body) => Fetched(raw, body, fetchedAt)
                       case None => FetchFailed(None);
        s.(inFlight := s.inFlight[1..], results := s.results + [JobResult(job, outcome)])
    case WorkerFails(retryAfter) =>
      if s.inFlight == [] then s
      else s.(inFlight := s.inFlight[1..], results := s.results + [JobResult(s.inFlight[0], FetchFailed(retryAfter))])
    case _ => s
  }

  function Step(dec: Decoders, cfg: SessionConfig, s: Session, t: Turn): Session
    requires MdInv(s.books)
  {
    match t
    case Receive(message) => OnReceive(dec, s, message)
    case Collect(now) => OnCollect(cfg, s, now)
    case Request(now, alive) => OnRequest(s, now, alive)
    case Schedule(now, alive) => OnSchedule(cfg, s, now, alive)
    case Disconnect => TakeAllDown(s)
    case _ => WorkerStep(dec, s, t)
  }

  function New(books: MdState): Session {
    Session(books, NoRequests(|books.syncs|), 0, 0, None, 0, 0, [], [], [], [], [])
  }

  // ---------------------------------------------------------------- the books stay sound

  lemma BooksKept(dec: Decoders, cfg: SessionConfig, s: Session, t: Turn)
    requires MdInv(s.books)
    ensures MdInv(Step(dec, cfg, s, t).books)
  {
    ShadowResetInv(s.books);
    ResetAllInv(s.books);
    match t
    case Receive(message) =>
      ApplyMessageInv(dec, s.books, message);
      ResetAllInv(ApplyMessage(dec, s.books, message).0);
    case Collect(now) => CollectBooksKept(cfg, s, now);
    case Schedule(now, alive) => ScheduleBooksKept(cfg, s, now, alive);
    case Request(now, alive) => RequestKeeps(s, |s.states|, now);
    case _ =>
  }

  lemma CollectBooksKept(cfg: SessionConfig, s: Session, now: int)
    requires MdInv(s.books)
    ensures MdInv(OnCollect(cfg, s, now).books)
  {
    ShadowResetInv(s.books);
    if s.results != [] && s.results[0].outcome.Fetched? {
      TakeSnapshotInv(s.books, s.results[0].job.instrument, s.results[0].outcome.body, s.results[0].outcome.fetchedAt);
      TakeVerificationSnapshotInv(s.books, s.results[0].job.instrument, s.results[0].outcome.body);
    }
  }

  lemma BeginBooksKept(s: Session, i: nat, now: int, alive: bool)
    requires MdInv(s.books)
    ensures MdInv(Begin(s, i, now, alive).books)
  {
    ShadowResetInv(s.books);
    ShadowResetInv(StartVerification(s.books, i).0);
  }

  lemma ScheduleBooksKept(cfg: SessionConfig, s: Session, now: int, alive: bool)
    requires MdInv(s.books)
    ensures MdInv(OnSchedule(cfg, s, now, alive).books)
  {
    ShadowResetInv(s.books);
    if cfg.verifyEvery.Some? && (s.verification.None? || TimedOut(cfg, s, now)) {
      var s1 := if s.verification.Some? then s.(books := CancelVerification(s.books), verification := None) else s;
      var s2 := s1.(nextVerification := now + cfg.verifyEvery.value);
      var next := NextLive(s1.books, s1.verifyCursor, 0, |s1.states|);
      if next.Some? { BeginBooksKept(s2, next.value, now, alive); }
    }
  }

  lemma {:induction false} RequestKeeps(s: Session, n: nat, now: int)
    requires n <= |s.states|
    ensures var r := RequestUpTo(s, n, now);
            && r == s.(jobs := r.jobs, states := r.states)
            && forall i :: n <= i < |s.states| ==> r.states[i] == s.states[i]
  {
    if n > 0 { RequestKeeps(s, n - 1, now); }
  }

  function Run(dec: Decoders, cfg: SessionConfig, s: Session, turns: seq<Turn>): (r: Session)
    requires MdInv(s.books)
    ensures MdInv(r.books)
  {
    var n := |turns|;
    if n == 0 then s
    else
      var before := Run(dec, cfg, s, turns[..n - 1]);
      BooksKept(dec, cfg, before, turns[n - 1]);
      Step(dec, cfg, before, turns[n - 1])
  }

  // ---------------------------------------------------------------- the session itself

  class MdSession {
    const config: SessionConfig
    const books: MarketBooks
    var states: seq<SnapshotState>
    var generation: u64
    var epoch: nat
    var verification: Option<(nat, int)>
    var nextVerification: int
    var verifyCursor: nat
    var jobs: seq<Job>
    ghost var inFlight: seq<Job>
    var results: seq<JobResult>
    var journal: seq<Record>
    var heard: seq<Heard>

    ghost predicate Valid()
      reads this, books
    {
      books.Valid()
    }

    ghost function View(): Session
      reads this, books
    {
      Session(books.View(), states, generation, epoch, verification, nextVerification, verifyCursor,
              jobs, inFlight, results, journal, heard)
    }

    constructor (config: SessionConfig, books: MarketBooks)
      requires books.Valid()
      ensures Valid() && this.books == books && View() == New(books.View())
    {
      this.config, this.books := config, books;
      states := NoRequests(|books.syncs|);
      generation, epoch, verification, nextVerification, verifyCursor := 0, 0, None, 0, 0;
      jobs, inFlight, results, journal, heard := [], [], [], [], [];
    }

    method TakeDown()
      requires Valid()
      modifies this, books
      ensures Valid()
      ensures View() == TakeAllDown(old(View()))
    {
      journal, generation, epoch := journal + [ResetRecord], NextGeneration(generation), epoch + 1;
      books.ResetBooks();
      ForgetRequests();
    }

    /** Neither a verification nor a snapshot is wanted any more. */
    method ForgetRequests()
      modifies this`verification, this`states
      ensures View() == old(View()).(verification := None, states := NoRequests(|old(states)|))
    {
      verification := None;
      var k := 0;
      while k < |states|
        invariant 0 <= k <= |states| == |old(states)|
        invariant verification.None? && forall i :: 0 <= i < k ==> states[i] == NothingAsked
      {
        states := states[k := NothingAsked];
        k := k + 1;
      }
    }

    /** Journals a message exactly as received, before decoding it; a message that cannot be
        attributed to an instrument ends the connection. */
    method ReceiveMessage(dec: Decoders, message: seq<byte>)
      requires Valid()
      modifies this, books
      ensures Valid() && View() == OnReceive(dec, old(View()), message)
    {
      journal := journal + [MessageRecord(message)];
      var outcome := books.ApplyOne(dec, message);
      if outcome.None? {
        TakeDown();
        return;
      }
      NoteOutcome(outcome.value);
    }

    /** Reports what a message did, and notes a verification that ended and a book that went down. */
    method NoteOutcome(outcome: Outcome)
      modifies this`heard, this`verification, this`states
      ensures View() == AfterApply(old(View()), outcome)
    {
      heard := heard + Report(MdState(books.syncs, books.shadow, books.verifying, books.loaded), outcome);
      if verification.Some? && books.verifying != Some(verification.value.0) {
        verification := None;
      }
      if outcome.WentDown? { states := SetState(states, outcome.instrument, NothingAsked); }
    }

    method RequestSnapshots(now: int, workerAlive: bool)
      requires Valid()
      modifies this`jobs, this`states
      ensures View() == OnRequest(old(View()), now, workerAlive)
    {
      var k := 0;
      while k < |states|
        invariant 0 <= k <= |states| == |old(states)|
        invariant View() == if workerAlive then RequestUpTo(old(View()), k, now) else old(View())
      {
        var due := match states[k]
                   case NothingAsked => true
                   case RetryAt(at) => now >= at
                   case Requested => false;
        var live := k < |books.syncs| && books.syncs[k].live.Some?;
        RequestKeeps(old(View()), k, now);
        if !live && due && workerAlive { AskFor(k); }
        k := k + 1;
      }
    }

    method AskFor(k: nat)
      requires k < |states|
      modifies this`jobs, this`states
      ensures View() == old(View()).(jobs := old(jobs) + [Job(k, generation, ToSync, epoch)],
                                     states := old(states)[k := Requested])
    {
      jobs := jobs + [Job(k, generation, ToSync, epoch)];
      states := states[k := Requested];
    }

    method CollectResult(now: int)
      requires Valid()
      modifies this, books
      ensures Valid() && View() == OnCollect(config, old(View()), now)
    {
      if results == [] {
        return;
      }
      var r := results[0];
      results := results[1..];
      if r.job.generation != generation {
        return;
      }
      if r.job.purpose.ToSync? {
        UseSnapshot(r, now);
      } else {
        UseVerification(r);
      }
    }

    method UseSnapshot(r: JobResult, now: int)
      requires Valid()
      modifies this, books
      ensures Valid() && View() == ApplySnapshot(config, old(View()), r, now)
    {
      var i := r.job.instrument;
      match r.outcome
      case FetchFailed(retryAfter) =>
        var wait := if retryAfter.Some? then Max(retryAfter.value, config.snapshotRetry) else config.snapshotRetry;
        states := SetState(states, i, RetryAt(now + wait));
        journal := journal + [StatusRecord];
      case Fetched(raw, body, fetchedAt) =>
        journal := journal + [SnapshotRecord(i, raw, fetchedAt)];
        var outcome, more := books.LoadSnapshot(i, body, fetchedAt);
        heard := heard + more;
        states := SetState(states, i, if outcome.Rejected? then RetryAt(now + config.snapshotRetry) else NothingAsked);
    }

    method UseVerification(r: JobResult)
      requires Valid()
      modifies this, books
      ensures Valid() && View() == ApplyVerificationSnapshot(old(View()), r)
    {
      var i := r.job.instrument;
      if verification.None? || verification.value.0 != i || books.verifying != Some(i) {
        return;
      }
      match r.outcome
      case FetchFailed(_) => AbandonVerification();
      case Fetched(raw, body, _) =>
        journal := journal + [VerifySnapshotRecord(i, raw)];
        var verdict, more := books.LoadVerification(i, body);
        NoteVerdict(i, verdict, more);
    }

    /** A verdict ends the verification; a mismatch makes the book resynchronise. */
    method NoteVerdict(i: nat, verdict: Verification, more: seq<Heard>)
      modifies this`heard, this`verification, this`states
      ensures View() == old(View()).(heard := old(heard) + more,
                                     verification := if verdict.VerifyPending? then old(verification) else None,
                                     states := if verdict.Differs? then SetState(old(states), i, NothingAsked)
                                               else old(states))
    {
      heard := heard + more;
      if !verdict.VerifyPending? { verification := None; }
      if verdict.Differs? { states := SetState(states, i, NothingAsked); }
    }

    /** Gives up on the verification, without a record. */
    method AbandonVerification()
      requires Valid()
      modifies books, this`verification
      ensures Valid()
      ensures View() == old(View()).(books := CancelVerification(old(View()).books), verification := None)
    {
      books.Cancel();
      verification := None;
    }

    method ScheduleVerification(now: int, workerAlive: bool)
      requires Valid()
      modifies this, books
      ensures Valid() && View() == OnSchedule(config, old(View()), now, workerAlive)
    {
      if config.verifyEvery.None? {
        return;
      }
      if verification.Some? {
        if now - verification.value.1 < config.verifyTimeout {
          return;
        }
        AbandonVerification();
      }
      if now < nextVerification {
        return;
      }
      StartNext(now, workerAlive);
      nextVerification := now + config.verifyEvery.value;
    }

    /** Journals a verification that has started and asks for its snapshot, or cancels it if the worker
        is gone. */
    method NoteStarted(i: nat, now: int, workerAlive: bool)
      requires Valid()
      modifies this, books
      ensures Valid()
      ensures var s := old(View());
              var s' := s.(journal := s.journal + [VerifyStartRecord(i)], verifyCursor := i + 1);
              View() == if workerAlive then
                          s'.(jobs := s.jobs + [Job(i, s.generation, ToVerify, s.epoch)],
                              verification := Some((i, now)))
                        else s'.(books := CancelVerification(s.books))
    {
      journal := journal + [VerifyStartRecord(i)];
      if workerAlive {
        jobs := jobs + [Job(i, generation, ToVerify, epoch)];
        verification := Some((i, now));
      } else {
        books.Cancel();
      }
      verifyCursor := i + 1;
    }

    /** Starts verifying the first live instrument from the cursor on. */
    method StartNext(now: int, workerAlive: bool)
      requires Valid() && verification.None?
      modifies this, books
      ensures Valid()
      ensures var s := old(View());
              match NextLive(s.books, s.verifyCursor, 0, |s.states|)
              case None => View() == s
              case Some(i) => View() == Begin(s, i, now, workerAlive)
    {
      var step := 0;
      while step < |states|
        invariant 0 <= step <= |states| && Valid() && View() == old(View())
        invariant NextLive(books.View(), verifyCursor, 0, |states|)
                  == NextLive(books.View(), verifyCursor, step, |states|)
      {
        var i := (verifyCursor + step) % |states|;
        var started := books.Start(i);
        if started {
          NoteStarted(i, now, workerAlive);
          return;
        }
        step := step + 1;
      }
    }
  }
}
