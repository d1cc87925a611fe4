/** What every turn of a market-data session does, told by its outcome
    (crates/bowst-venue/src/binance/md.rs): what the handler hears, which snapshots are asked for and
    when, and which book is verified next. */
module SessionTurns {
  import opened Common
  import opened Ladders
  import opened Books
  import opened BookSyncs
  import opened MdBooks
  import opened MdSessions
  import opened SessionWorker
  import opened Remainders

  /** What a turn adds to what the handler has heard. */
  function Added(s: Session, s': Session): seq<Heard>
    requires s.heard <= s'.heard
  {
    s'.heard[|s.heard|..]
  }

  // ---------------------------------------------------------------- messages

  predicate Attributable(dec: Decoders, s: Session, m: seq<byte>) {
    dec.message(m).Some? && dec.message(m).value.instrument < |s.books.syncs|
  }

  /** The states after instrument `i` went from live to down, if it did. */
  function StatesAfterDown(s: Session, s': Session, i: nat): seq<SnapshotState> {
    if IsLive(s.books, i) && !IsLive(s'.books, i) then SetState(s.states, i, NothingAsked) else s.states
  }

  /** A message that can be attributed is journaled, touches the book of its instrument alone, and is heard
      as what became of that book; one that cannot takes every book down and starts a new connection. */
  lemma ReceiveHears(dec: Decoders, s: Session, m: seq<byte>)
    requires MdInv(s.books)
    ensures var s' := OnReceive(dec, s, m);
            if !Attributable(dec, s, m) then
              && s'.heard == s.heard && s'.epoch == s.epoch + 1 && (forall i :: !IsLive(s'.books, i))
              && s'.journal == s.journal + [MessageRecord(m), ResetRecord] && s'.states == NoRequests(|s.states|)
            else
              var u := dec.message(m).value;
              && |s'.books.syncs| == |s.books.syncs| && s.heard <= s'.heard
              && HearsOf(s.books, s'.books, u, Added(s, s')) && OthersStay(s.books, s'.books, u.instrument)
              && (IsLive(s'.books, u.instrument) || !IsLive(s.books, u.instrument) ==>
                    s'.books.syncs[u.instrument] == OnDelta(s.books.syncs[u.instrument], u.delta).0)
              && s'.states == StatesAfterDown(s, s', u.instrument) && s'.epoch == s.epoch
              && s'.journal == s.journal + [MessageRecord(m)]
  {
    MessageHeard(dec, s.books, m);
    if Attributable(dec, s, m) {
      AttributedStates(dec, s, m);
    } else {
      assert s.journal + [MessageRecord(m)] + [ResetRecord] == s.journal + [MessageRecord(m), ResetRecord];
    }
  }

  lemma AttributedStates(dec: Decoders, s: Session, m: seq<byte>)
    requires MdInv(s.books) && Attributable(dec, s, m)
    ensures var s' := OnReceive(dec, s, m);
            && s'.states == StatesAfterDown(s, s', dec.message(m).value.instrument)
            && s'.epoch == s.epoch && s'.journal == s.journal + [MessageRecord(m)]
            && s'.books == ApplyMessage(dec, s.books, m).0
            && s'.heard == s.heard + Report(s'.books, ApplyMessage(dec, s.books, m).1.value)
  {
    MessageHeard(dec, s.books, m);
    DownOutcome(dec, s.books, m);
  }

  /** A message is answered `WentDown` exactly when it takes its book down. */
  lemma DownOutcome(dec: Decoders, s: MdState, m: seq<byte>)
    requires MdInv(s) && dec.message(m).Some? && dec.message(m).value.instrument < |s.syncs|
    ensures var (s', outcome) := ApplyMessage(dec, s, m);
            var i := dec.message(m).value.instrument;
            && outcome.Some? && (outcome.value.WentDown? <==> IsLive(s, i) && !IsLive(s', i))
            && (outcome.value.WentDown? ==> outcome.value.instrument == i)
  {
    MessageHeard(dec, s, m);
  }

  // ---------------------------------------------------------------- requests

  /** Instrument `i` needs a snapshot: its book is down, and none has been asked for or the time to ask
      again has come. */
  predicate NeedsAsking(s: Session, i: nat, now: int)
    requires i < |s.states|
  {
    !IsLive(s.books, i) && (s.states[i] == NothingAsked || (s.states[i].RetryAt? && s.states[i].at <= now))
  }

  predicate Ascending(asked: seq<nat>) {
    forall j, k :: 0 <= j < k < |asked| ==> asked[j] < asked[k]
  }

  /** These are the instruments below `n` that need one, in order. */
  ghost predicate Needing(s: Session, n: nat, now: int, asked: seq<nat>)
    requires n <= |s.states|
  {
    && Ascending(asked)
    && (forall i: nat :: i in asked <==> i < n && NeedsAsking(s, i, now))
  }

  /** One request for each, stamped with the current connection. */
  function RequestsFor(s: Session, asked: seq<nat>): seq<Job> {
    seq(|asked|, k requires 0 <= k < |asked| => Job(asked[k], s.generation, ToSync, s.epoch))
  }

  ghost predicate RequestedFor(s: Session, s': Session, asked: seq<nat>) {
    && s' == s.(jobs := s.jobs + RequestsFor(s, asked), states := s'.states)
    && |s'.states| == |s.states|
    && forall i: nat :: i < |s.states| ==> s'.states[i] == if i in asked then Requested else s.states[i]
  }

  lemma NeedingMore(s: Session, n: nat, now: int, asked: seq<nat>)
    requires n < |s.states| && Needing(s, n, now, asked)
    ensures Needing(s, n + 1, now, if NeedsAsking(s, n, now) then asked + [n] else asked)
  {
    if NeedsAsking(s, n, now) {
      MoreMembers(asked, n);
      StillAscending(asked, n);
    }
  }

  lemma MoreMembers(asked: seq<nat>, n: nat)
    ensures forall i: nat :: i in asked + [n] <==> i in asked || i == n
  {
  }

  lemma StillAscending(asked: seq<nat>, n: nat)
    requires Ascending(asked) && forall i: nat :: i in asked ==> i < n
    ensures Ascending(asked + [n])
  {
    forall j | 0 <= j < |asked| ensures asked[j] < n {
      assert asked[j] in asked;
    }
  }

  /** Whether the next instrument is wanted is not changed by asking for those before it. */
  lemma WantedIff(s: Session, s': Session, n: nat, now: int, asked: seq<nat>)
    requires n < |s.states| && Needing(s, n, now, asked) && RequestedFor(s, s', asked)
    ensures Wanted(s', n, now) <==> NeedsAsking(s, n, now)
  {
    assert n !in asked;
  }

  lemma RequestsMore(s: Session, asked: seq<nat>, n: nat)
    ensures RequestsFor(s, asked + [n]) == RequestsFor(s, asked) + [Job(n, s.generation, ToSync, s.epoch)]
  {
  }

  lemma RequestedMore(s: Session, s': Session, asked: seq<nat>, n: nat)
    requires RequestedFor(s, s', asked) && n < |s.states|
    ensures RequestedFor(s, s'.(jobs := s'.jobs + [Job(n, s.generation, ToSync, s.epoch)],
                                states := s'.states[n := Requested]), asked + [n])
  {
    MoreMembers(asked, n);
    RequestsMore(s, asked, n);
    Associates(s.jobs, RequestsFor(s, asked), [Job(n, s.generation, ToSync, s.epoch)]);
  }

  lemma NoneRequested(s: Session)
    ensures RequestedFor(s, s, [])
  {
    assert s.jobs + RequestsFor(s, []) == s.jobs;
  }

  lemma RequestNext(s: Session, n: nat, now: int, before: seq<nat>)
    requires n < |s.states| && Needing(s, n, now, before) && RequestedFor(s, RequestUpTo(s, n, now), before)
    ensures var asked := if NeedsAsking(s, n, now) then before + [n] else before;
            Needing(s, n + 1, now, asked) && RequestedFor(s, RequestUpTo(s, n + 1, now), asked)
  {
    var s' := RequestUpTo(s, n, now);
    NeedingMore(s, n, now, before);
    WantedIff(s, s', n, now, before);
    RequestedMore(s, s', before, n);
  }

  lemma {:induction false} RequestUpToAnswers(s: Session, n: nat, now: int) returns (asked: seq<nat>)
    requires n <= |s.states|
    ensures Needing(s, n, now, asked) && RequestedFor(s, RequestUpTo(s, n, now), asked)
  {
    if n == 0 {
      asked := [];
      NoneRequested(s);
    } else {
      var before := RequestUpToAnswers(s, n - 1, now);
      asked := if NeedsAsking(s, n - 1, now) then before + [n - 1] else before;
      RequestNext(s, n - 1, now, before);
    }
  }

  /** A round of requests asks for exactly the snapshots that are needed, once each and in order, on the
      current connection, and changes nothing else; with the worker gone it asks for none. */
  lemma RequestAnswers(s: Session, now: int, alive: bool)
    ensures exists asked :: RequestedFor(s, OnRequest(s, now, alive), asked)
              && if alive then Needing(s, |s.states|, now, asked) else asked == []
  {
    if alive {
      var asked := RequestUpToAnswers(s, |s.states|, now);
    } else {
      NoneRequested(s);
      assert RequestedFor(s, OnRequest(s, now, alive), []);
    }
  }

  /** The instruments 0 to `n - 1`, in order. */
  function Everyone(n: nat): seq<nat> {
    seq(n, i => i)
  }

  /** After a disconnect nothing is live, buffered or being verified, whatever was before; and the next
      round of requests, whenever it comes, asks for every instrument, on the new connection. */
  lemma ReconnectAnswers(dec: Decoders, cfg: SessionConfig, s: Session, now: int)
    requires MdInv(s.books)
    ensures var s' := MdSessions.Step(dec, cfg, s, Disconnect);
            && (forall i :: 0 <= i < |s'.books.syncs| ==>
                  s'.books.syncs[i].live.None? && s'.books.syncs[i].pending == [])
            && s'.books.verifying.None? && s'.verification.None?
            && |s'.books.syncs| == |s.books.syncs| && |s'.states| == |s.states|
            && s'.journal == s.journal + [ResetRecord] && s'.heard == s.heard
            && s'.epoch == s.epoch + 1
            && RequestedFor(s', OnRequest(s', now, true), Everyone(|s.states|))
  {
    var s' := TakeAllDown(s);
    var asked := RequestUpToAnswers(s', |s'.states|, now);
    AscendingAll(asked, |s'.states|);
  }

  /** Ascending numbers that are all those below `n` are 0 to `n - 1`. */
  lemma {:induction false} AscendingAll(asked: seq<nat>, n: nat)
    requires Ascending(asked) && forall i: nat :: i in asked <==> i < n
    ensures asked == Everyone(n)
  {
    forall k | 0 <= k < |asked| ensures asked[k] < n { assert asked[k] in asked; }
    if n == 0 {
      assert |asked| == 0;
    } else {
      assert n - 1 in asked;
      var k :| 0 <= k < |asked| && asked[k] == n - 1;
      var last := asked[|asked| - 1];
      assert k == |asked| - 1;
      var init := asked[..k];
      forall i: nat ensures i in init <==> i < n - 1 {
        if i in init { assert i in asked; }
        if i < n - 1 { assert i in asked; }
      }
      AscendingAll(init, n - 1);
      assert asked == init + [n - 1];
    }
  }

  // ---------------------------------------------------------------- the worker

  /** The worker takes the oldest request when it is idle, and reports of it what became of the fetch: the
      snapshot if its bytes decode as one, and else a failure; the advised wait is passed on. */
  lemma WorkerAnswers(dec: Decoders, cfg: SessionConfig, s: Session, job: Job, more: seq<Job>, raw: seq<byte>, at: int,
                      retryAfter: Option<int>)
    requires MdInv(s.books) && s.inFlight == [] && s.jobs == [job] + more
    ensures var taken := MdSessions.Step(dec, cfg, s, WorkerTakes);
            var fetched := MdSessions.Step(dec, cfg, taken, WorkerFetches(raw, at));
            var failed := MdSessions.Step(dec, cfg, taken, WorkerFails(retryAfter));
            && taken == s.(inFlight := [job], jobs := more)
            && MdSessions.Step(dec, cfg, taken, WorkerTakes) == taken
            && failed == s.(jobs := more, results := s.results + [JobResult(job, FetchFailed(retryAfter))])
            && fetched == s.(jobs := more, results := fetched.results)
            && |fetched.results| == |s.results| + 1 && s.results <= fetched.results
            && var r := fetched.results[|s.results|];
               && r.job == job
               && (r.outcome.Fetched? <==> dec.snapshot(job.instrument, raw).Some?)
               && (r.outcome.Fetched? ==> r.outcome.raw == raw && r.outcome.fetchedAt == at
                                          && dec.snapshot(job.instrument, raw) == Some(r.outcome.body))
               && (r.outcome.FetchFailed? ==> r.outcome.retryAfter.None?)
  {
    assert s.jobs[1..] == more && s.jobs[0] == job;
  }

  // ---------------------------------------------------------------- results

  /** How long to wait after a failed fetch. */
  function WaitAfter(cfg: SessionConfig, retryAfter: Option<int>): int {
    if retryAfter.Some? && retryAfter.value > cfg.snapshotRetry then retryAfter.value else cfg.snapshotRetry
  }

  /** A result of the current connection, first in line, that was asked for to synchronise a book. */
  predicate NextIsSync(s: Session, r: JobResult) {
    s.results != [] && s.results[0] == r && r.job.generation == s.generation && r.job.purpose.ToSync?
  }

  lemma CollectFails(cfg: SessionConfig, s: Session, now: int, r: JobResult)
    requires MdInv(s.books) && NextIsSync(s, r) && r.outcome.FetchFailed?
    ensures OnCollect(cfg, s, now)
         == s.(results := s.results[1..], journal := s.journal + [StatusRecord],
               states := SetState(s.states, r.job.instrument, RetryAt(now + WaitAfter(cfg, r.outcome.retryAfter))))
  {
  }

  /** A snapshot that was fetched is journaled and loaded into the book of its instrument alone. The handler
      hears what `SnapshotHeard` says; the next one may be asked for at once, unless this one was refused. */
  lemma CollectHears(cfg: SessionConfig, s: Session, now: int, r: JobResult)
    requires MdInv(s.books) && NextIsSync(s, r) && r.outcome.Fetched? && r.job.instrument < |s.books.syncs|
    ensures var s', i, body := OnCollect(cfg, s, now), r.job.instrument, r.outcome.body;
            var answer := OnSnapshot(s.books.syncs[i], body.seqNo, body.bids, body.asks).1;
            var refused := answer.Err? && !answer.error.SnapshotTooOld?;
            && s'.books == s.books.(syncs := s.books.syncs[i := s'.books.syncs[i]])
            && s'.results == s.results[1..] && s'.epoch == s.epoch
            && s'.journal == s.journal + [SnapshotRecord(i, r.outcome.raw, r.outcome.fetchedAt)]
            && s'.states == SetState(s.states, i, if refused then RetryAt(now + cfg.snapshotRetry) else NothingAsked)
            && (IsLive(s'.books, i) <==> answer == Ok(true) || (answer == Ok(false) && IsLive(s.books, i)))
            && s'.heard == s.heard + (if answer == Ok(true) then
                                        [HeardLive(i), HeardBook(i, s'.books.syncs[i].book, r.outcome.fetchedAt)]
                                      else if refused then [HeardDown(i, SyncDown(answer.error))] else [])
  {
    var i, body := r.job.instrument, r.outcome.body;
    SnapshotHeard(s.books, i, body, r.outcome.fetchedAt);
    CollectLoads(cfg, s, now, r);
  }

  lemma CollectLoads(cfg: SessionConfig, s: Session, now: int, r: JobResult)
    requires MdInv(s.books) && NextIsSync(s, r) && r.outcome.Fetched?
    ensures var i, at := r.job.instrument, r.outcome.fetchedAt;
            var (books, outcome, heard) := TakeSnapshot(s.books, i, r.outcome.body, at);
            OnCollect(cfg, s, now)
            == s.(results := s.results[1..], journal := s.journal + [SnapshotRecord(i, r.outcome.raw, at)],
                  books := books, heard := s.heard + heard,
                  states := SetState(s.states, i, if outcome.Rejected? then RetryAt(now + cfg.snapshotRetry)
                                                  else NothingAsked))
  {
  }

  /** The verification the session waits for is the one the books run. */
  predicate AwaitsVerification(s: Session, i: nat) {
    s.verification.Some? && s.verification.value.0 == i && s.books.verifying == Some(i)
  }

  /** A result for a verification: dropped unless it is awaited; given up without a record if the fetch failed;
      otherwise journaled, loaded into the shadow and heard if the books differ, which takes the live one
      down. */
  lemma CollectVerifies(cfg: SessionConfig, s: Session, now: int, r: JobResult)
    requires MdInv(s.books) && s.results != [] && s.results[0] == r && r.job.generation == s.generation
    requires r.job.purpose.ToVerify?
    ensures var s', i := OnCollect(cfg, s, now), r.job.instrument;
            if !AwaitsVerification(s, i) then s' == s.(results := s.results[1..])
            else if r.outcome.FetchFailed? then
              s' == s.(results := s.results[1..], books := CancelVerification(s.books), verification := None)
            else
              var (books, verdict, heard) := TakeVerificationSnapshot(s.books, i, r.outcome.body);
              s' == s.(results := s.results[1..], books := books, heard := s.heard + heard,
                       journal := s.journal + [VerifySnapshotRecord(i, r.outcome.raw)],
                       verification := if !s.books.loaded && books.verifying == Some(i) then s.verification else None,
                       states := if IsLive(s.books, i) && !IsLive(books, i) then SetState(s.states, i, NothingAsked)
                                 else s.states)
  {
    if AwaitsVerification(s, r.job.instrument) && r.outcome.Fetched? {
      VerdictShows(s.books, r.job.instrument, r.outcome.body);
    }
  }

  lemma VerdictShows(s: MdState, i: nat, body: SnapshotBody)
    requires MdInv(s) && s.verifying == Some(i)
    ensures var (s', verdict, _) := TakeVerificationSnapshot(s, i, body);
            && (verdict.VerifyPending? <==> !s.loaded && s'.verifying == Some(i))
            && (verdict.Differs? <==> IsLive(s, i) && !IsLive(s', i))
  {
    VerificationHeard(s, i, body);
    VerificationAnswers(s, i, body);
  }

  /** A result of an earlier connection is dropped. */
  lemma CollectDrops(cfg: SessionConfig, s: Session, now: int)
    requires MdInv(s.books) && s.results != [] && s.results[0].job.generation != s.generation
    ensures OnCollect(cfg, s, now) == s.(results := s.results[1..])
  {
  }

  // ---------------------------------------------------------------- the verification under way

  /** The verification the session waits for is the one the books run; books that run one nobody waits for
      have loaded its snapshot. */
  predicate Attended(s: Session) {
    && (s.verification.Some? ==> s.books.verifying == Some(s.verification.value.0))
    && (s.verification.None? && s.books.verifying.Some? ==> s.books.loaded)
  }

  lemma MessageAttended(dec: Decoders, s: MdState, m: seq<byte>)
    requires MdInv(s)
    ensures var s' := ApplyMessage(dec, s, m).0;
            s'.verifying.None? || (s'.verifying == s.verifying && s'.loaded == s.loaded)
  {
    MessageHeard(dec, s, m);
    var u := dec.message(m);
    if u.Some? && u.value.instrument < |s.syncs| && s.verifying.Some? { MessageVerifies(dec, s, m, u.value); }
  }

  lemma CollectAttended(cfg: SessionConfig, s: Session, now: int)
    requires MdInv(s.books) && Attended(s)
    ensures Attended(OnCollect(cfg, s, now))
  {
    if s.results != [] {
      var r := s.results[0];
      if NextIsSync(s, r) {
        if r.outcome.Fetched? { CollectLoads(cfg, s, now, r); } else { CollectFails(cfg, s, now, r); }
      } else if r.job.generation == s.generation {
        CollectVerifies(cfg, s, now, r);
        if r.outcome.Fetched? { VerificationAnswers(s.books, r.job.instrument, r.outcome.body); }
      }
    }
  }

  lemma ScheduleAttended(cfg: SessionConfig, s: Session, now: int, alive: bool)
    requires Attended(s)
    ensures Attended(OnSchedule(cfg, s, now, alive))
  {
    ScheduleAnswers(cfg, s, now, alive);
  }

  lemma ReceiveAttended(dec: Decoders, s: Session, m: seq<byte>)
    requires MdInv(s.books) && Attended(s)
    ensures Attended(OnReceive(dec, s, m))
  {
    MessageAttended(dec, s.books, m);
  }

  lemma StepAttended(dec: Decoders, cfg: SessionConfig, s: Session, t: Turn)
    requires MdInv(s.books) && Attended(s)
    ensures Attended(MdSessions.Step(dec, cfg, s, t))
  {
    match t
    case Receive(m) => ReceiveAttended(dec, s, m);
    case Collect(now) => CollectAttended(cfg, s, now);
    case Request(now, _) => RequestKeeps(s, |s.states|, now);
    case Schedule(now, alive) => ScheduleAttended(cfg, s, now, alive);
    case _ =>
  }

  /** In every run, the session waits for a verification only while the books run it, and books run one that
      the session does not wait for only with its snapshot loaded. */
  lemma {:induction false} VerificationAttended(dec: Decoders, cfg: SessionConfig, books: MdState, turns: seq<Turn>)
    requires MdInv(books) && books.verifying.None?
    ensures Attended(MdSessions.Run(dec, cfg, New(books), turns))
  {
    var n := |turns|;
    if n > 0 {
      VerificationAttended(dec, cfg, books, turns[..n - 1]);
      StepAttended(dec, cfg, MdSessions.Run(dec, cfg, New(books), turns[..n - 1]), turns[n - 1]);
    }
  }

  // ---------------------------------------------------------------- asking again

  /** Nobody could ask for a snapshot at or after `deadline`. */
  predicate NoneAskedAfter(turns: seq<Turn>, deadline: int) {
    forall k :: 0 <= k < |turns| && turns[k].Request? && turns[k].workerAlive ==> turns[k].now < deadline
  }

  /** Instrument `i` is down and waits until `deadline`. */
  predicate WaitsUntil(s: Session, i: nat, deadline: int) {
    i < |s.states| && s.states[i] == RetryAt(deadline) && !IsLive(s.books, i)
  }

  lemma ReceiveWaits(dec: Decoders, s: Session, i: nat, deadline: int, m: seq<byte>)
    requires WorkerInv(s) && WaitsUntil(s, i, deadline) && OnReceive(dec, s, m).epoch == s.epoch
    ensures WaitsUntil(OnReceive(dec, s, m), i, deadline)
  {
    ReceiveHears(dec, s, m);
    MessageLiveness(dec, s.books, m);
  }

  /** Nothing that was asked for on this connection can be for an instrument that waits. */
  lemma NotForWaiting(s: Session, i: nat, deadline: int, r: JobResult)
    requires WorkerInv(s) && s.epoch < TWO_64 && WaitsUntil(s, i, deadline) && NextIsSync(s, r)
    ensures r.job.instrument != i
  {
    assert Pipeline(s)[0] == r.job;
    GenerationTells(s, r.job);
  }

  lemma CollectWaits(cfg: SessionConfig, s: Session, i: nat, deadline: int, now: int)
    requires WorkerInv(s) && s.epoch < TWO_64 && WaitsUntil(s, i, deadline)
    ensures WaitsUntil(OnCollect(cfg, s, now), i, deadline)
  {
    if s.results != [] {
      var r := s.results[0];
      if NextIsSync(s, r) {
        NotForWaiting(s, i, deadline, r);
        if r.outcome.Fetched? { SnapshotLiveness(s.books, r.job.instrument, r.outcome.body, r.outcome.fetchedAt); }
      } else if r.outcome.Fetched? {
        VerificationLiveness(s.books, r.job.instrument, r.outcome.body);
      }
    }
  }

  lemma RequestWaits(s: Session, i: nat, deadline: int, now: int, alive: bool)
    requires WaitsUntil(s, i, deadline)
    ensures var s' := OnRequest(s, now, alive);
            if alive && now >= deadline then s'.states[i] == Requested else WaitsUntil(s', i, deadline)
  {
    RequestAnswers(s, now, alive);
  }

  lemma StepWaits(dec: Decoders, cfg: SessionConfig, s: Session, i: nat, deadline: int, t: Turn)
    requires WorkerInv(s) && s.epoch < TWO_64 && WaitsUntil(s, i, deadline)
    requires MdSessions.Step(dec, cfg, s, t).epoch == s.epoch
    requires t.Request? && t.workerAlive ==> t.now < deadline
    ensures WaitsUntil(MdSessions.Step(dec, cfg, s, t), i, deadline)
  {
    match t
    case Receive(m) => ReceiveWaits(dec, s, i, deadline, m);
    case Collect(now) => CollectWaits(cfg, s, i, deadline, now);
    case Request(now, alive) => RequestWaits(s, i, deadline, now, alive);
    case Schedule(now, alive) => ScheduleShape(cfg, s, now, alive);
    case Disconnect => assert false;
    case _ =>
  }

  /** As long as the connection lasts and nobody could ask at the deadline or later, a wait goes on. */
  lemma {:induction false} RunWaits(dec: Decoders, cfg: SessionConfig, s: Session, i: nat, deadline: int,
                                    turns: seq<Turn>)
    requires WorkerInv(s) && s.epoch < TWO_64 && WaitsUntil(s, i, deadline)
    requires MdSessions.Run(dec, cfg, s, turns).epoch == s.epoch && NoneAskedAfter(turns, deadline)
    ensures var r := MdSessions.Run(dec, cfg, s, turns);
            WorkerInv(r) && WaitsUntil(r, i, deadline)
  {
    var n := |turns|;
    if n > 0 {
      var before := MdSessions.Run(dec, cfg, s, turns[..n - 1]);
      EpochGrows(dec, cfg, before, turns[n - 1]);
      EpochGrowsAlong(dec, cfg, s, turns[..n - 1]);
      RunWaits(dec, cfg, s, i, deadline, turns[..n - 1]);
      StepInv(dec, cfg, before, turns[n - 1]);
      StepWaits(dec, cfg, before, i, deadline, turns[n - 1]);
    }
  }

  lemma {:induction false} EpochGrowsAlong(dec: Decoders, cfg: SessionConfig, s: Session, turns: seq<Turn>)
    requires MdInv(s.books)
    ensures s.epoch <= MdSessions.Run(dec, cfg, s, turns).epoch
  {
    var n := |turns|;
    if n > 0 {
      EpochGrowsAlong(dec, cfg, s, turns[..n - 1]);
      EpochGrows(dec, cfg, MdSessions.Run(dec, cfg, s, turns[..n - 1]), turns[n - 1]);
    }
  }

  lemma AskedOnce(dec: Decoders, cfg: SessionConfig, s: Session, i: nat, deadline: int, now: int, alive: bool)
    requires WorkerInv(s) && s.epoch < TWO_64 && WaitsUntil(s, i, deadline)
    ensures Outstanding(Pipeline(s), i, s.epoch) == 0
    ensures Outstanding(Pipeline(OnRequest(s, now, alive)), i, s.epoch) == if alive && now >= deadline then 1 else 0
  {
    StepInv(dec, cfg, s, Request(now, alive));
    RequestWaits(s, i, deadline, now, alive);
    RequestKeeps(s, |s.states|, now);
  }

  /** An instrument waiting for `deadline` is asked for by the first round of requests at or after it, and by
      none before, as long as the connection lasts. */
  lemma AsksAtDeadline(dec: Decoders, cfg: SessionConfig, s: Session, i: nat, deadline: int, turns: seq<Turn>,
                       now: int, alive: bool)
    requires WorkerInv(s) && s.epoch < TWO_64 && WaitsUntil(s, i, deadline)
    requires MdSessions.Run(dec, cfg, s, turns).epoch == s.epoch && NoneAskedAfter(turns, deadline)
    ensures var r := MdSessions.Run(dec, cfg, s, turns);
            var r' := OnRequest(r, now, alive);
            && WaitsUntil(r, i, deadline) && Outstanding(Pipeline(r), i, s.epoch) == 0
            && Outstanding(Pipeline(r'), i, s.epoch) == if alive && now >= deadline then 1 else 0
  {
    RunWaits(dec, cfg, s, i, deadline, turns);
    AskedOnce(dec, cfg, MdSessions.Run(dec, cfg, s, turns), i, deadline, now, alive);
  }

  /** After a fetch that failed, the next request for its instrument on the same connection is made by the
      first round of requests once the longer of the advised and the configured wait has passed, and by none
      before. */
  lemma FailedFetchIsRetried(dec: Decoders, cfg: SessionConfig, s: Session, at: int, r: JobResult, turns: seq<Turn>,
                             now: int, alive: bool)
    requires WorkerInv(s) && s.epoch < TWO_64 && NextIsSync(s, r) && r.outcome.FetchFailed?
    requires r.job.instrument < |s.states|
    requires NoneAskedAfter(turns, at + WaitAfter(cfg, r.outcome.retryAfter))
    ensures MdInv(OnCollect(cfg, s, at).books)
    ensures var i, deadline := r.job.instrument, at + WaitAfter(cfg, r.outcome.retryAfter);
            var later := MdSessions.Run(dec, cfg, OnCollect(cfg, s, at), turns);
            var asked := OnRequest(later, now, alive);
            later.epoch == s.epoch ==>
              && Outstanding(Pipeline(later), i, s.epoch) == 0
              && Outstanding(Pipeline(asked), i, s.epoch) == if alive && now >= deadline then 1 else 0
  {
    var i, deadline := r.job.instrument, at + WaitAfter(cfg, r.outcome.retryAfter);
    var s' := OnCollect(cfg, s, at);
    CollectFails(cfg, s, at, r);
    CollectInv(cfg, s, at);
    WasDown(s, r);
    if MdSessions.Run(dec, cfg, s', turns).epoch == s.epoch {
      AsksAtDeadline(dec, cfg, s', i, deadline, turns, now, alive);
    }
  }

  /** An instrument whose request is answered is down. */
  lemma WasDown(s: Session, r: JobResult)
    requires WorkerInv(s) && s.epoch < TWO_64 && NextIsSync(s, r) && r.job.instrument < |s.states|
    ensures !IsLive(s.books, r.job.instrument)
  {
    assert Pipeline(s)[0] == r.job;
    GenerationTells(s, r.job);
    Answered(s.books, s.states, Pipeline(s), s.epoch);
  }

  // ---------------------------------------------------------------- verifying in turn

  /** The instrument that is `k` places on in turn is live. */
  predicate LiveInTurn(books: MdState, cursor: nat, count: nat, k: int)
    requires 0 < count && 0 <= k
  {
    IsLive(books, (cursor + k) % count)
  }

  /** The first live instrument in turn, from `cursor` on. */
  ghost predicate FirstLive(books: MdState, cursor: nat, count: nat, i: nat)
    requires 0 < count
  {
    exists step :: FirstAtStep(books, cursor, count, i, step)
  }

  ghost predicate NoneBefore(books: MdState, cursor: nat, count: nat, step: int)
    requires 0 < count
  {
    forall k :: 0 <= k < step ==> !LiveInTurn(books, cursor, count, k)
  }

  ghost predicate FirstAtStep(books: MdState, cursor: nat, count: nat, i: nat, step: int)
    requires 0 < count
  {
    && 0 <= step < count && i == (cursor + step) % count
    && LiveInTurn(books, cursor, count, step) && NoneBefore(books, cursor, count, step)
  }

  lemma {:induction false} NextLiveIs(books: MdState, cursor: nat, step: nat, count: nat)
    requires step <= count && (0 < count ==> NoneBefore(books, cursor, count, step))
    ensures NextLive(books, cursor, step, count).Some? ==>
              0 < count && FirstLive(books, cursor, count, NextLive(books, cursor, step, count).value)
    ensures NextLive(books, cursor, step, count).None? && 0 < count ==> NoneBefore(books, cursor, count, count)
    decreases count - step
  {
    if step < count {
      if LiveInTurn(books, cursor, count, step) {
        assert FirstAtStep(books, cursor, count, (cursor + step) % count, step);
      } else {
        NextLiveIs(books, cursor, step + 1, count);
      }
    }
  }

  /** Going round once meets every instrument. */
  lemma Reached(cursor: nat, i: nat, count: nat) returns (k: nat)
    requires i < count
    ensures k < count && (cursor + k) % count == i
  {
    k := (i - cursor) % count;
    Advance(i - cursor, cursor, count);
    Small(i, count);
  }

  lemma NoneLive(a: MdState, b: MdState, cursor: nat, count: nat)
    requires a.syncs == b.syncs && 0 < count && NoneBefore(a, cursor, count, count)
    ensures forall i :: 0 <= i < count ==> !IsLive(b, i)
  {
    forall i | 0 <= i < count ensures !IsLive(b, i) {
      var k := Reached(cursor, i, count);
      assert !LiveInTurn(a, cursor, count, k);
    }
  }

  lemma SameFirstLive(a: MdState, b: MdState, cursor: nat, count: nat, i: nat)
    requires 0 < count && a.syncs == b.syncs && FirstLive(a, cursor, count, i)
    ensures FirstLive(b, cursor, count, i) && IsLive(b, i) && i < count
  {
    var step :| FirstAtStep(a, cursor, count, i, step);
    forall k | 0 <= k < step ensures !LiveInTurn(b, cursor, count, k) {
      assert !LiveInTurn(a, cursor, count, k);
    }
    assert FirstAtStep(b, cursor, count, i, step);
  }

  /** Nothing happened but that the verification, if there was one, was given up. */
  predicate GivenUp(s: Session, s': Session) {
    if s.verification.None? then s' == s.(nextVerification := s'.nextVerification)
    else
      && s'.books == s.books.(verifying := None, loaded := s'.books.loaded, shadow := s'.books.shadow)
      && s' == s.(books := s'.books, verification := None, nextVerification := s'.nextVerification)
  }

  /** A verification of instrument `i` has begun, if the worker took the request for its snapshot. */
  predicate Begun(s: Session, s': Session, i: nat, now: int, alive: bool) {
    && s'.books == s.books.(verifying := if alive then Some(i) else None, loaded := false, shadow := s'.books.shadow)
    && s'.books.shadow.live.None? && s'.books.shadow.pending == []
    && s' == s.(journal := s.journal + [VerifyStartRecord(i)], verifyCursor := i + 1, books := s'.books,
                nextVerification := s'.nextVerification,
                jobs := if alive then s.jobs + [Job(i, s.generation, ToVerify, s.epoch)] else s.jobs,
                verification := if alive then Some((i, now)) else None)
  }

  lemma BeginIsBegun(s: Session, s1: Session, i: nat, now: int, alive: bool)
    requires GivenUp(s, s1) && IsLive(s.books, i) && s1.verification.None?
    ensures Begun(s, Begin(s1, i, now, alive), i, now, alive)
  {
  }

  /** The session when the next verification is due: whatever was under way is given up. */
  function Overdue(cfg: SessionConfig, s: Session, now: int): Session
    requires cfg.verifyEvery.Some?
  {
    var s1 := if s.verification.Some? then s.(books := CancelVerification(s.books), verification := None) else s;
    if now < s1.nextVerification then s1 else s1.(nextVerification := now + cfg.verifyEvery.value)
  }

  lemma OverdueGivesUp(cfg: SessionConfig, s: Session, now: int)
    requires cfg.verifyEvery.Some?
    ensures GivenUp(s, Overdue(cfg, s, now)) && Overdue(cfg, s, now).books.syncs == s.books.syncs
  {
  }

  lemma ScheduleIs(cfg: SessionConfig, s: Session, now: int, alive: bool)
    requires cfg.verifyEvery.Some? && (s.verification.None? || TimedOut(cfg, s, now))
    ensures var o := Overdue(cfg, s, now);
            var next := NextLive(o.books, s.verifyCursor, 0, |s.states|);
            OnSchedule(cfg, s, now, alive)
            == if now < s.nextVerification || next.None? then o else Begin(o, next.value, now, alive)
  {
  }

  ghost predicate ScheduleAnswered(s: Session, now: int, alive: bool, s': Session) {
    if now < s.nextVerification || (forall i :: 0 <= i < |s.states| ==> !IsLive(s.books, i)) then GivenUp(s, s')
    else
      exists i: nat :: i < |s.states| && FirstLive(s.books, s.verifyCursor, |s.states|, i)
                       && Begun(s, s', i, now, alive)
  }

  /** A verification that takes too long is given up. When none is left and the next one is due, the first
      live instrument in turn is verified, and the one after it is next in turn. */
  lemma ScheduleAnswers(cfg: SessionConfig, s: Session, now: int, alive: bool)
    ensures var s' := OnSchedule(cfg, s, now, alive);
            if cfg.verifyEvery.None? || (s.verification.Some? && now - s.verification.value.1 < cfg.verifyTimeout) then
              s' == s
            else
              && s'.nextVerification == (if now < s.nextVerification then s.nextVerification
                                         else now + cfg.verifyEvery.value)
              && ScheduleAnswered(s, now, alive, s')
  {
    if cfg.verifyEvery.Some? && (s.verification.None? || TimedOut(cfg, s, now)) {
      ScheduleIs(cfg, s, now, alive);
      OverdueGivesUp(cfg, s, now);
      if now >= s.nextVerification { DueAnswers(s, Overdue(cfg, s, now), now, alive); }
    }
  }

  lemma DueAnswers(s: Session, o: Session, now: int, alive: bool)
    requires GivenUp(s, o) && o.books.syncs == s.books.syncs && o.verification.None? && now >= s.nextVerification
    ensures var next := NextLive(o.books, s.verifyCursor, 0, |s.states|);
            ScheduleAnswered(s, now, alive, if next.None? then o else Begin(o, next.value, now, alive))
  {
    var next, count := NextLive(o.books, s.verifyCursor, 0, |s.states|), |s.states|;
    NextLiveIs(o.books, s.verifyCursor, 0, count);
    if next.Some? {
      SameFirstLive(o.books, s.books, s.verifyCursor, count, next.value);
      BeginIsBegun(s, o, next.value, now, alive);
    } else if 0 < count {
      NoneLive(o.books, s.books, s.verifyCursor, count);
    }
  }
}
