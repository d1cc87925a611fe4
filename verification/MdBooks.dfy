/** The books of one market-data session and their verification
    (crates/bowst-venue/src/binance/books.rs).

    Decoding is a parameter: a fixed function from bytes to an update or a snapshot. */
module MdBooks {
  import opened Common
  import opened Ladders
  import opened Books
  import opened BookSyncs

  /** Levels per side compared when verifying a book against a fresh snapshot. */
  const VERIFY_LEVELS: nat := 100

  type ValidDelta = d: Delta | d.first <= d.last witness Delta(0, 0, [])

  datatype Update = Update(instrument: nat, eventTime: int, delta: ValidDelta)

  datatype SnapshotBody = SnapshotBody(seqNo: u64, bids: seq<Level>, asks: seq<Level>)

  datatype Decoders = Decoders(message: seq<byte> -> Option<Update>,
                               snapshot: (nat, seq<byte>) -> Option<SnapshotBody>)

  datatype Mismatch = Mismatch(side: Side, level: nat, updateId: u64, live: Option<Level>, rebuilt: Option<Level>)

  datatype DownReason = SyncDown(error: SyncError) | MismatchDown(mismatch: Mismatch) | UndecodableSnapshot

  datatype Outcome = Quiet | BookChanged(instrument: nat, eventTime: int)
      | WentDown(instrument: nat, reason: DownReason)

  datatype SnapshotOutcome = BecameLive | LeftUnchanged | NeedsNewer | Rejected

  datatype Verification = NotRunning | VerifyPending | Passed | Differs(mismatch: Mismatch) | Unusable

  /** What the handler hears. */
  datatype Heard =
    | HeardBook(instrument: nat, book: BookState, time: int)
    | HeardLive(instrument: nat)
    | HeardDown(instrument: nat, reason: DownReason)

  /** Every instrument's sync, and the shadow sync of the verification in progress, if any. */
  datatype MdState = MdState(syncs: seq<SyncState>, shadow: SyncState, verifying: Option<nat>, loaded: bool)

  ghost predicate MdInv(s: MdState) {
    SyncInv(s.shadow) && forall i :: 0 <= i < |s.syncs| ==> SyncInv(s.syncs[i])
  }

  predicate IsLive(s: MdState, i: nat) {
    i < |s.syncs| && s.syncs[i].live.Some?
  }

  // ---------------------------------------------------------------- comparing two books

  /** The `n`-th best level, counting from 0. */
  function NthBest(l: LadderState, n: nat): Option<Level> {
    if n < |l.levels| then Some(l.levels[|l.levels| - 1 - n]) else None
  }

  function CompareFrom(side: Side, live: LadderState, rebuilt: LadderState, level: nat, updateId: u64): Option<Mismatch>
    decreases VERIFY_LEVELS - level
  {
    if level >= VERIFY_LEVELS then None
    else
      var x, y := NthBest(live, level), NthBest(rebuilt, level);
      if x != y then Some(Mismatch(side, level, updateId, x, y))
      else if x.None? then None
      else CompareFrom(side, live, rebuilt, level + 1, updateId)
  }

  /** The first difference in the top levels of either side, bids first. */
  function Compare(live: BookState, rebuilt: BookState, updateId: u64): Option<Mismatch> {
    match CompareFrom(Buy, live.bids, rebuilt.bids, 0, updateId)
    case Some(m) => Some(m)
    case None => CompareFrom(Sell, live.asks, rebuilt.asks, 0, updateId)
  }

  // ---------------------------------------------------------------- operations

  function CancelVerification(s: MdState): MdState {
    if s.verifying.None? then s else s.(verifying := None, shadow := Reset(s.shadow), loaded := false)
  }

  function StartVerification(s: MdState, i: nat): (MdState, bool) {
    if !IsLive(s, i) then (s, false)
    else (s.(shadow := Reset(s.shadow), verifying := Some(i), loaded := false), true)
  }

  /** A comparison is due: a snapshot is loaded and both books have applied the same update. */
  predicate Due(s: MdState) {
    && s.verifying.Some? && s.loaded && IsLive(s, s.verifying.value)
    && s.shadow.live.Some? && s.syncs[s.verifying.value].live == s.shadow.live
  }

  function Settle(s: MdState): (MdState, Option<Mismatch>) {
    if !Due(s) then (s, None)
    else
      var i := s.verifying.value;
      var verdict := Compare(s.syncs[i].book, s.shadow.book, s.shadow.live.value);
      var s' := CancelVerification(s);
      if verdict.None? then (s', None)
      else (s'.(syncs := s.syncs[i := Reset(s.syncs[i])]), verdict)
  }

  /** Feeds a delta to the live sync and, while that instrument is being verified, to the shadow. */
  function Feed(s: MdState, i: nat, d: Delta): (MdState, Result<DeltaOutcome, SyncError>)
    requires MdInv(s) && i < |s.syncs|
  {
    var (sync, r) := OnDelta(s.syncs[i], d);
    var fed := s.(syncs := s.syncs[i := sync]);
    if s.verifying != Some(i) then (fed, r)
    else if r.Err? then (CancelVerification(fed), r)
    else (fed.(shadow := OnDelta(s.shadow, d).0), r)
  }

  /** `MdBooks::apply`: `None` when the message cannot be attributed to an instrument. */
  function ApplyMessage(dec: Decoders, s: MdState, message: seq<byte>): (MdState, Option<Outcome>)
    requires MdInv(s)
  {
    match dec.message(message)
    case None => (s, None)
    case Some(u) =>
      if u.instrument >= |s.syncs| then (s, None)
      else
        var (fed, r) := Feed(s, u.instrument, u.delta);
        match r
        case Err(e) => (fed, Some(WentDown(u.instrument, SyncDown(e))))
        case Ok(DeltaApplied) =>
          if s.verifying != Some(u.instrument) then (fed, Some(BookChanged(u.instrument, u.eventTime)))
          else
            var (settled, mismatch) := Settle(fed);
            (settled, Some(if mismatch.Some? then WentDown(u.instrument, MismatchDown(mismatch.value))
                           else BookChanged(u.instrument, u.eventTime)))
        case Ok(_) => (fed, Some(Quiet))
  }

  function Report(s: MdState, outcome: Outcome): seq<Heard> {
    match outcome
    case Quiet => []
    case BookChanged(i, time) => if IsLive(s, i) then [HeardBook(i, s.syncs[i].book, time)] else []
    case WentDown(i, reason) => [HeardDown(i, reason)]
  }

  /** What comes of loading a decoded snapshot into the sync of `i`. */
  function SnapshotReport(i: nat, sync: SyncState, r: Result<bool, SyncError>, time: int)
    : (SnapshotOutcome, seq<Heard>) {
    match r
    case Ok(true) => (BecameLive, if sync.live.Some? then [HeardLive(i), HeardBook(i, sync.book, time)] else [])
    case Ok(false) => (LeftUnchanged, [])
    case Err(e) => if e.SnapshotTooOld? then (NeedsNewer, []) else (Rejected, [HeardDown(i, SyncDown(e))])
  }

  /** Loads a decoded snapshot into the live sync of `i`. */
  function TakeSnapshot(s: MdState, i: nat, body: SnapshotBody, time: int): (MdState, SnapshotOutcome, seq<Heard>)
    requires MdInv(s)
  {
    if i >= |s.syncs| then (s, Rejected, [])
    else
      var (sync, r) := OnSnapshot(s.syncs[i], body.seqNo, body.bids, body.asks);
      var (outcome, heard) := SnapshotReport(i, sync, r, time);
      (s.(syncs := s.syncs[i := sync]), outcome, heard)
  }

  function TakeRawSnapshot(dec: Decoders, s: MdState, i: nat, raw: seq<byte>, time: int)
    : (MdState, SnapshotOutcome, seq<Heard>)
    requires MdInv(s)
  {
    if i >= |s.syncs| then (s, Rejected, [])
    else
      match dec.snapshot(i, raw)
      case None => (s, Rejected, [HeardDown(i, UndecodableSnapshot)])
      case Some(body) => TakeSnapshot(s, i, body, time)
  }

  /** After the verification snapshot was tried: compares right away if both books agree on the update. */
  function AfterVerificationSnapshot(s: MdState, i: nat, usable: bool): (MdState, Verification, seq<Heard>) {
    if !usable then (CancelVerification(s), Unusable, [])
    else
      var (s', mismatch) := Settle(s.(loaded := true));
      if mismatch.Some? then (s', Differs(mismatch.value), [HeardDown(i, MismatchDown(mismatch.value))])
      else (s', if s'.verifying.None? then Passed else VerifyPending, [])
  }

  function TakeVerificationSnapshot(s: MdState, i: nat, body: SnapshotBody): (MdState, Verification, seq<Heard>)
    requires MdInv(s)
  {
    if s.verifying != Some(i) || s.loaded then (s, NotRunning, [])
    else
      var (shadow, r) := OnSnapshot(s.shadow, body.seqNo, body.bids, body.asks);
      AfterVerificationSnapshot(s.(shadow := shadow), i, r.Ok?)
  }

  function TakeRawVerificationSnapshot(dec: Decoders, s: MdState, i: nat, raw: seq<byte>)
    : (MdState, Verification, seq<Heard>)
    requires MdInv(s)
  {
    if s.verifying != Some(i) || s.loaded || i >= |s.syncs| then (s, NotRunning, [])
    else
      match dec.snapshot(i, raw)
      case None => AfterVerificationSnapshot(s, i, false)
      case Some(body) => TakeVerificationSnapshot(s, i, body)
  }

  function ResetAll(s: MdState): MdState {
    CancelVerification(s.(syncs := seq(|s.syncs|, i requires 0 <= i < |s.syncs| => Reset(s.syncs[i]))))
  }

  // ---------------------------------------------------------------- what every operation keeps

  lemma ShadowResetInv(s: MdState)
    requires MdInv(s)
    ensures MdInv(CancelVerification(s))
    ensures forall i :: MdInv(StartVerification(s, i).0)
  {
    ResetInv(s.shadow);
  }

  lemma FeedInv(s: MdState, i: nat, d: ValidDelta)
    requires MdInv(s) && i < |s.syncs|
    ensures MdInv(Feed(s, i, d).0)
  {
    OnDeltaInv(s.syncs[i], d);
    OnDeltaInv(s.shadow, d);
    ResetInv(s.shadow);
  }

  lemma SettleInv(s: MdState)
    requires MdInv(s)
    ensures MdInv(Settle(s).0)
  {
    ResetInv(s.shadow);
    if Due(s) { ResetInv(s.syncs[s.verifying.value]); }
  }

  lemma ApplyMessageInv(dec: Decoders, s: MdState, message: seq<byte>)
    requires MdInv(s)
    ensures MdInv(ApplyMessage(dec, s, message).0)
  {
    var u := dec.message(message);
    if u.Some? && u.value.instrument < |s.syncs| {
      FeedInv(s, u.value.instrument, u.value.delta);
      SettleInv(Feed(s, u.value.instrument, u.value.delta).0);
    }
  }

  lemma TakeSnapshotInv(s: MdState, i: nat, body: SnapshotBody, time: int)
    requires MdInv(s)
    ensures MdInv(TakeSnapshot(s, i, body, time).0)
  {
    if i < |s.syncs| { OnSnapshotInv(s.syncs[i], body.seqNo, body.bids, body.asks); }
  }

  lemma TakeVerificationSnapshotInv(s: MdState, i: nat, body: SnapshotBody)
    requires MdInv(s)
    ensures MdInv(TakeVerificationSnapshot(s, i, body).0)
  {
    if s.verifying == Some(i) && !s.loaded {
      OnSnapshotInv(s.shadow, body.seqNo, body.bids, body.asks);
      var (shadow, r) := OnSnapshot(s.shadow, body.seqNo, body.bids, body.asks);
      ShadowResetInv(s.(shadow := shadow));
      SettleInv(s.(shadow := shadow, loaded := true));
    }
  }

  lemma ResetAllInv(s: MdState)
    requires MdInv(s)
    ensures MdInv(ResetAll(s))
  {
    forall i | 0 <= i < |s.syncs| ensures SyncInv(Reset(s.syncs[i])) { ResetInv(s.syncs[i]); }
    ResetInv(s.shadow);
  }

  // ---------------------------------------------------------------- what a verdict means

  /** The top levels agree from level `from` on. */
  ghost predicate TopAgree(a: LadderState, b: LadderState, from: nat) {
    forall n :: from <= n < VERIFY_LEVELS ==> NthBest(a, n) == NthBest(b, n)
  }

  lemma {:induction false} CompareFromIff(side: Side, a: LadderState, b: LadderState, level: nat, id: u64)
    ensures CompareFrom(side, a, b, level, id).None? <==> TopAgree(a, b, level)
    ensures CompareFrom(side, a, b, level, id).Some? ==>
              var m := CompareFrom(side, a, b, level, id).value;
              && m.side == side && m.updateId == id && level <= m.level < VERIFY_LEVELS
              && m.live == NthBest(a, m.level) && m.rebuilt == NthBest(b, m.level) && m.live != m.rebuilt
              && forall n :: level <= n < m.level ==> NthBest(a, n) == NthBest(b, n)
    decreases VERIFY_LEVELS - level
  {
    if level < VERIFY_LEVELS && NthBest(a, level) == NthBest(b, level) && NthBest(a, level).Some? {
      CompareFromIff(side, a, b, level + 1, id);
    }
  }

  /** No mismatch exactly when the top levels of both sides are equal. */
  lemma CompareIff(live: BookState, rebuilt: BookState, id: u64)
    ensures Compare(live, rebuilt, id).None?
            <==> TopAgree(live.bids, rebuilt.bids, 0) && TopAgree(live.asks, rebuilt.asks, 0)
  {
    CompareFromIff(Buy, live.bids, rebuilt.bids, 0, id);
    CompareFromIff(Sell, live.asks, rebuilt.asks, 0, id);
  }

  /** The verdict, in every state: books are compared only when both are at the same update; no
      mismatch means their top levels are equal; a mismatch leaves the live book down; and whenever
      books are compared the verification is over. */
  lemma SettleVerdict(s: MdState)
    requires MdInv(s)
    ensures Settle(s).0 != s ==> Due(s)
    ensures Due(s) ==> Settle(s).0.verifying.None? && !Settle(s).0.loaded
    ensures Due(s) ==>
              var live := s.syncs[s.verifying.value];
              Settle(s).1.None?
              <==> (TopAgree(live.book.bids, s.shadow.book.bids, 0) && TopAgree(live.book.asks, s.shadow.book.asks, 0))
    ensures Settle(s).1.Some? ==>
              && Due(s) && !IsLive(Settle(s).0, s.verifying.value)
              && Settle(s).1.value.updateId == s.syncs[s.verifying.value].live.value
  {
    if Due(s) {
      var live := s.syncs[s.verifying.value];
      CompareIff(live.book, s.shadow.book, s.shadow.live.value);
      CompareFromIff(Buy, live.book.bids, s.shadow.book.bids, 0, s.shadow.live.value);
      CompareFromIff(Sell, live.book.asks, s.shadow.book.asks, 0, s.shadow.live.value);
    }
  }

  // ---------------------------------------------------------------- what the handler hears

  /** The mismatch names the first difference between the top levels of two books, bids first. */
  ghost predicate FirstDifference(m: Mismatch, live: BookState, rebuilt: BookState) {
    && m.level < VERIFY_LEVELS && m.live != m.rebuilt
    && m.live == NthBest(SideOf(live, m.side), m.level) && m.rebuilt == NthBest(SideOf(rebuilt, m.side), m.level)
    && (forall n :: 0 <= n < m.level ==> NthBest(SideOf(live, m.side), n) == NthBest(SideOf(rebuilt, m.side), n))
    && (m.side.Sell? ==> TopAgree(live.bids, rebuilt.bids, 0))
  }

  lemma CompareTells(live: BookState, rebuilt: BookState, id: u64)
    ensures Compare(live, rebuilt, id).Some? ==>
              FirstDifference(Compare(live, rebuilt, id).value, live, rebuilt)
              && Compare(live, rebuilt, id).value.updateId == id
  {
    CompareFromIff(Buy, live.bids, rebuilt.bids, 0, id);
    CompareFromIff(Sell, live.asks, rebuilt.asks, 0, id);
  }

  /** Why a message can take down the book of `i`: its sync refuses the delta, or the delta brings it
      level with the book rebuilt for verification and the two differ. */
  ghost predicate DownFor(s: MdState, i: nat, d: Delta, reason: DownReason)
    requires MdInv(s) && i < |s.syncs|
  {
    var (fed, r) := OnDelta(s.syncs[i], d);
    match reason
    case SyncDown(e) => r == Err(e)
    case MismatchDown(m) =>
      && r == Ok(DeltaApplied) && s.verifying == Some(i) && s.loaded && m.updateId == d.last
      && FirstDifference(m, fed.book, OnDelta(s.shadow, d).0.book)
    case UndecodableSnapshot => false
  }

  /** All that the handler hears of a message for an instrument: a book that went down, with the reason;
      or a book that moved on, as it is now, with the time of the message; or nothing. */
  ghost predicate HearsOf(s: MdState, s': MdState, u: Update, heard: seq<Heard>)
    requires MdInv(s) && u.instrument < |s.syncs| == |s'.syncs|
  {
    var i := u.instrument;
    if IsLive(s, i) && !IsLive(s', i) then
      |heard| == 1 && heard[0].HeardDown? && heard[0].instrument == i && DownFor(s, i, u.delta, heard[0].reason)
    else if IsLive(s, i) && s'.syncs[i].live != s.syncs[i].live then
      heard == [HeardBook(i, s'.syncs[i].book, u.eventTime)]
    else heard == []
  }

  ghost predicate OthersStay(s: MdState, s': MdState, i: nat)
    requires |s.syncs| == |s'.syncs|
  {
    forall j :: 0 <= j < |s.syncs| && j != i ==> s'.syncs[j] == s.syncs[j]
  }

  /** An applied delta ends where the sync then is. */
  lemma AppliedAt(s: SyncState, d: ValidDelta)
    requires SyncInv(s) && OnDelta(s, d).1 == Ok(DeltaApplied)
    ensures s.live.Some? && OnDelta(s, d).0.live == Some(d.last) && s.live.value < d.last
  {
  }

  lemma OtherwiseStays(s: SyncState, d: ValidDelta)
    requires SyncInv(s)
    ensures OnDelta(s, d).1.Err? ==> s.live.Some? && OnDelta(s, d).0.live.None?
    ensures OnDelta(s, d).1.Ok? && OnDelta(s, d).1 != Ok(DeltaApplied) ==> OnDelta(s, d).0.live == s.live
  {
  }

  lemma SettleTells(s: MdState)
    ensures |Settle(s).0.syncs| == |s.syncs|
    ensures Settle(s).1.None? ==> Settle(s).0.syncs == s.syncs
    ensures Settle(s).1.Some? ==>
              && Due(s) && !IsLive(Settle(s).0, s.verifying.value)
              && Settle(s).0.syncs == s.syncs[s.verifying.value := Settle(s).0.syncs[s.verifying.value]]
              && FirstDifference(Settle(s).1.value, s.syncs[s.verifying.value].book, s.shadow.book)
              && Some(Settle(s).1.value.updateId) == s.syncs[s.verifying.value].live
  {
    if Due(s) { CompareTells(s.syncs[s.verifying.value].book, s.shadow.book, s.shadow.live.value); }
  }

  lemma AppliedHeard(dec: Decoders, s: MdState, m: seq<byte>, u: Update)
    requires MdInv(s) && dec.message(m) == Some(u) && u.instrument < |s.syncs|
    requires OnDelta(s.syncs[u.instrument], u.delta).1 == Ok(DeltaApplied)
    ensures var (s', outcome) := ApplyMessage(dec, s, m);
            && outcome.Some? && |s'.syncs| == |s.syncs|
            && OthersStay(s, s', u.instrument)
            && (IsLive(s', u.instrument) ==> s'.syncs[u.instrument] == OnDelta(s.syncs[u.instrument], u.delta).0)
            && HearsOf(s, s', u, Report(s', outcome.value))
  {
    AppliedAt(s.syncs[u.instrument], u.delta);
    SettleTells(Feed(s, u.instrument, u.delta).0);
  }

  /** Every message: one that cannot be attributed changes nothing and is reported to the session; any other
      touches its own instrument alone, and the handler hears what became of it. */
  lemma MessageHeard(dec: Decoders, s: MdState, m: seq<byte>)
    requires MdInv(s)
    ensures var (s', outcome) := ApplyMessage(dec, s, m);
            if dec.message(m).None? || dec.message(m).value.instrument >= |s.syncs| then s' == s && outcome.None?
            else
              var u := dec.message(m).value;
              && outcome.Some? && |s'.syncs| == |s.syncs|
              && OthersStay(s, s', u.instrument)
              && (IsLive(s', u.instrument) || !IsLive(s, u.instrument) ==>
                    s'.syncs[u.instrument] == OnDelta(s.syncs[u.instrument], u.delta).0)
              && HearsOf(s, s', u, Report(s', outcome.value))
  {
    var u := dec.message(m);
    if u.Some? && u.value.instrument < |s.syncs| {
      var i, d := u.value.instrument, u.value.delta;
      if OnDelta(s.syncs[i], d).1 == Ok(DeltaApplied) {
        AppliedHeard(dec, s, m, u.value);
      } else {
        OtherwiseStays(s.syncs[i], d);
      }
    }
  }

  /** What a message does to a verification: it feeds the shadow of its instrument, and ends the
      verification if the live sync refuses the delta or the delta brings both books level. */
  lemma MessageVerifies(dec: Decoders, s: MdState, m: seq<byte>, u: Update)
    requires MdInv(s) && dec.message(m) == Some(u) && u.instrument < |s.syncs| && s.verifying.Some?
    ensures var s' := ApplyMessage(dec, s, m).0;
            var (fed, r) := OnDelta(s.syncs[u.instrument], u.delta);
            var shadow := OnDelta(s.shadow, u.delta).0;
            if s.verifying != Some(u.instrument) then
              s'.verifying == s.verifying && s'.shadow == s.shadow && s'.loaded == s.loaded
            else if r.Err? || (r == Ok(DeltaApplied) && s.loaded && shadow.live == fed.live) then s'.verifying.None?
            else s'.verifying == s.verifying && s'.shadow == shadow && s'.loaded == s.loaded
  {
    if OnDelta(s.syncs[u.instrument], u.delta).1 == Ok(DeltaApplied) { AppliedAt(s.syncs[u.instrument], u.delta); }
  }

  /** All that the handler hears of a snapshot that was loaded: that the book is live and what it is now; or
      nothing if it was of no use; or that it was refused, and why. */
  lemma SnapshotHeard(s: MdState, i: nat, body: SnapshotBody, time: int)
    requires MdInv(s) && i < |s.syncs|
    ensures var (s', outcome, heard) := TakeSnapshot(s, i, body, time);
            var answer := OnSnapshot(s.syncs[i], body.seqNo, body.bids, body.asks).1;
            && s' == s.(syncs := s.syncs[i := s'.syncs[i]])
            && (answer == Ok(true) ==>
                  && IsLive(s', i) && heard == [HeardLive(i), HeardBook(i, s'.syncs[i].book, time)]
                  && outcome == BecameLive)
            && (answer == Ok(false) ==> s' == s && heard == [] && outcome == LeftUnchanged)
            && (answer.Err? ==>
                  && !IsLive(s', i) && (outcome == if answer.error.SnapshotTooOld? then NeedsNewer else Rejected)
                  && (heard == if answer.error.SnapshotTooOld? then [] else [HeardDown(i, SyncDown(answer.error))]))
  {
    OnSnapshotInv(s.syncs[i], body.seqNo, body.bids, body.asks);
    SnapshotAnswers(s.syncs[i], body.seqNo, body.bids, body.asks);
  }

  /** Bytes that are no snapshot change no book; for a book they are reported as such, and a verification
      they were to serve is over. */
  lemma UndecodableHeard(dec: Decoders, s: MdState, i: nat, raw: seq<byte>, time: int)
    requires MdInv(s) && i < |s.syncs| && dec.snapshot(i, raw).None?
    ensures TakeRawSnapshot(dec, s, i, raw, time) == (s, Rejected, [HeardDown(i, UndecodableSnapshot)])
    ensures var (s', verdict, heard) := TakeRawVerificationSnapshot(dec, s, i, raw);
            && s'.syncs == s.syncs && heard == []
            && (if s.verifying == Some(i) && !s.loaded then s'.verifying.None? && verdict.Unusable?
                else s' == s && verdict.NotRunning?)
  {
  }

  /** All that the handler hears of a verification snapshot: the first difference, if the comparison that
      becomes due finds one, and otherwise nothing. */
  lemma VerificationHeard(s: MdState, i: nat, body: SnapshotBody)
    requires MdInv(s)
    ensures var (s', verdict, heard) := TakeVerificationSnapshot(s, i, body);
            && |s'.syncs| == |s.syncs|
            && (if verdict.Differs? then
                  && s.verifying == Some(i) && IsLive(s, i) && !IsLive(s', i)
                  && s'.syncs == s.syncs[i := s'.syncs[i]]
                  && heard == [HeardDown(i, MismatchDown(verdict.mismatch))]
                  && Some(verdict.mismatch.updateId) == s.syncs[i].live
                  && FirstDifference(verdict.mismatch, s.syncs[i].book,
                                     OnSnapshot(s.shadow, body.seqNo, body.bids, body.asks).0.book)
                else s'.syncs == s.syncs && heard == [])
  {
    if s.verifying == Some(i) && !s.loaded {
      var shadow := OnSnapshot(s.shadow, body.seqNo, body.bids, body.asks).0;
      SettleTells(s.(shadow := shadow, loaded := true));
    }
  }

  /** The sync is what `fed` is, or that reset. */
  predicate KeptOrReset(fed: SyncState, s: SyncState) {
    s == fed || s == Reset(fed)
  }

  lemma SettledSyncs(s: MdState)
    ensures |Settle(s).0.syncs| == |s.syncs|
    ensures forall k :: 0 <= k < |s.syncs| ==> KeptOrReset(s.syncs[k], Settle(s).0.syncs[k])
    ensures forall k :: 0 <= k < |s.syncs| && s.verifying != Some(k) ==> Settle(s).0.syncs[k] == s.syncs[k]
  {
  }

  /** What becomes of the syncs with a message, and with a verification snapshot. */
  lemma MessageSyncs(dec: Decoders, s: MdState, m: seq<byte>, u: Update)
    requires MdInv(s) && dec.message(m) == Some(u) && u.instrument < |s.syncs|
    ensures var s' := ApplyMessage(dec, s, m).0;
            && |s'.syncs| == |s.syncs| && OthersStay(s, s', u.instrument)
            && KeptOrReset(OnDelta(s.syncs[u.instrument], u.delta).0, s'.syncs[u.instrument])
  {
    MessageHeard(dec, s, m);
    SettledSyncs(Feed(s, u.instrument, u.delta).0);
  }

  lemma VerificationSyncs(s: MdState, i: nat, body: SnapshotBody)
    requires MdInv(s)
    ensures var s' := TakeVerificationSnapshot(s, i, body).0;
            |s'.syncs| == |s.syncs| && forall k :: 0 <= k < |s.syncs| ==> KeptOrReset(s.syncs[k], s'.syncs[k])
  {
  }

  /** Both books are live and at the same update. */
  predicate Level(live: SyncState, shadow: SyncState) {
    live.live.Some? && shadow.live == live.live
  }

  /** What a verification snapshot is answered: it is of no use to a verification that is not running or has
      one already; it ends a verification whose shadow refuses it; and it is compared at once if that brings
      both books level, or else waited for. */
  lemma VerificationAnswers(s: MdState, i: nat, body: SnapshotBody)
    requires MdInv(s)
    ensures var (s', verdict, _) := TakeVerificationSnapshot(s, i, body);
            var (shadow, answer) := OnSnapshot(s.shadow, body.seqNo, body.bids, body.asks);
            if s.verifying != Some(i) || s.loaded then s' == s && verdict.NotRunning?
            else if answer.Err? then s' == CancelVerification(s.(shadow := shadow)) && verdict.Unusable?
            else if i < |s.syncs| && Level(s.syncs[i], shadow) then
              s'.verifying.None? && (verdict.Passed? || verdict.Differs?)
            else s' == s.(shadow := shadow, loaded := true) && verdict.VerifyPending?
  {
  }

  // ---------------------------------------------------------------- the books themselves

  class MarketBooks {
    var syncs: seq<SyncState>
    var shadow: SyncState
    var verifying: Option<nat>
    var loaded: bool

    ghost function View(): MdState
      reads this
    {
      MdState(syncs, shadow, verifying, loaded)
    }

    ghost predicate Valid()
      reads this
    {
      MdInv(View())
    }

    constructor (start: MdState)
      requires MdInv(start)
      ensures Valid() && View() == start
    {
      syncs, shadow, verifying, loaded := start.syncs, start.shadow, start.verifying, start.loaded;
    }

    method Cancel()
      requires Valid()
      modifies this
      ensures Valid() && View() == CancelVerification(old(View()))
    {
      ShadowResetInv(View());
      if verifying.Some? {
        verifying := None;
        shadow := Reset(shadow);
        loaded := false;
      }
    }

    method Start(i: nat) returns (started: bool)
      requires Valid()
      modifies this
      ensures Valid() && (View(), started) == StartVerification(old(View()), i)
    {
      ShadowResetInv(View());
      if i >= |syncs| || syncs[i].live.None? {
        return false;
      }
      shadow := Reset(shadow);
      verifying := Some(i);
      loaded := false;
      return true;
    }

    /** The first difference in the top levels of either side. */
    method CompareBooks(live: BookState, rebuilt: BookState, updateId: u64) returns (r: Option<Mismatch>)
      ensures r == Compare(live, rebuilt, updateId)
    {
      var sides := [Buy, Sell];
      var k := 0;
      while k < 2
        invariant 0 <= k <= 2
        invariant k >= 1 ==> CompareFrom(Buy, live.bids, rebuilt.bids, 0, updateId).None?
        invariant k == 2 ==> CompareFrom(Sell, live.asks, rebuilt.asks, 0, updateId).None?
      {
        var a, b := SideOf(live, sides[k]), SideOf(rebuilt, sides[k]);
        var level := 0;
        while level < VERIFY_LEVELS
          invariant 0 <= level <= VERIFY_LEVELS
          invariant CompareFrom(sides[k], a, b, 0, updateId) == CompareFrom(sides[k], a, b, level, updateId)
        {
          var x, y := NthBest(a, level), NthBest(b, level);
          if x != y {
            return Some(Mismatch(sides[k], level, updateId, x, y));
          }
          if x.None? {
            break;
          }
          level := level + 1;
        }
        k := k + 1;
      }
      return None;
    }

    method SettleVerification() returns (mismatch: Option<Mismatch>)
      requires Valid()
      modifies this
      ensures Valid() && (View(), mismatch) == Settle(old(View()))
    {
      SettleInv(View());
      if verifying.None? || !loaded || verifying.value >= |syncs| {
        return None;
      }
      var i := verifying.value;
      if syncs[i].live.None? || shadow.live.None? || syncs[i].live != shadow.live {
        return None;
      }
      var verdict := CompareBooks(syncs[i].book, shadow.book, shadow.live.value);
      Cancel();
      if verdict.Some? {
        syncs := syncs[i := Reset(syncs[i])];
      }
      return verdict;
    }

    method ApplyOne(dec: Decoders, message: seq<byte>) returns (outcome: Option<Outcome>)
      requires Valid()
      modifies this
      ensures Valid() && (View(), outcome) == ApplyMessage(dec, old(View()), message)
    {
      ApplyMessageInv(dec, View(), message);
      var decoded := dec.message(message);
      if decoded.None? || decoded.value.instrument >= |syncs| {
        return None;
      }
      var u := decoded.value;
      var i := u.instrument;
      FeedInv(View(), i, u.delta);
      var watched := verifying == Some(i);
      var (sync, r) := OnDelta(syncs[i], u.delta);
      syncs := syncs[i := sync];
      match r
      case Err(e) =>
        OnDeltaInv(old(syncs[i]), u.delta);
        if watched { Cancel(); }
        return Some(WentDown(i, SyncDown(e)));
      case Ok(done) =>
        if watched { shadow := OnDelta(shadow, u.delta).0; }
        if done != DeltaApplied {
          return Some(Quiet);
        }
        if watched {
          var mismatch := SettleVerification();
          if mismatch.Some? {
            return Some(WentDown(i, MismatchDown(mismatch.value)));
          }
        }
        return Some(BookChanged(i, u.eventTime));
    }

    method LoadSnapshot(i: nat, body: SnapshotBody, time: int) returns (outcome: SnapshotOutcome, heard: seq<Heard>)
      requires Valid()
      modifies this
      ensures Valid() && (View(), outcome, heard) == TakeSnapshot(old(View()), i, body, time)
    {
      TakeSnapshotInv(View(), i, body, time);
      if i >= |syncs| {
        return Rejected, [];
      }
      var (sync, r) := OnSnapshot(syncs[i], body.seqNo, body.bids, body.asks);
      syncs := syncs[i := sync];
      match r
      case Ok(used) =>
        if !used {
          return LeftUnchanged, [];
        }
        return BecameLive, if sync.live.Some? then [HeardLive(i), HeardBook(i, sync.book, time)] else [];
      case Err(e) =>
        if e.SnapshotTooOld? {
          return NeedsNewer, [];
        }
        return Rejected, [HeardDown(i, SyncDown(e))];
    }

    method LoadVerification(i: nat, body: SnapshotBody) returns (verdict: Verification, heard: seq<Heard>)
      requires Valid()
      modifies this
      ensures Valid() && (View(), verdict, heard) == TakeVerificationSnapshot(old(View()), i, body)
    {
      TakeVerificationSnapshotInv(View(), i, body);
      if verifying != Some(i) || loaded {
        return NotRunning, [];
      }
      OnSnapshotInv(shadow, body.seqNo, body.bids, body.asks);
      var (tried, r) := OnSnapshot(shadow, body.seqNo, body.bids, body.asks);
      shadow := tried;
      if r.Err? {
        Cancel();
        return Unusable, [];
      }
      loaded := true;
      var mismatch := SettleVerification();
      if mismatch.Some? {
        return Differs(mismatch.value), [HeardDown(i, MismatchDown(mismatch.value))];
      }
      return if verifying.None? then Passed else VerifyPending, [];
    }

    /** Decodes a raw snapshot body, as journaled, and applies it. */
    method LoadRawSnapshot(dec: Decoders, i: nat, raw: seq<byte>, time: int)
      returns (outcome: SnapshotOutcome, heard: seq<Heard>)
      requires Valid()
      modifies this
      ensures Valid() && (View(), outcome, heard) == TakeRawSnapshot(dec, old(View()), i, raw, time)
    {
      if i >= |syncs| {
        return Rejected, [];
      }
      match dec.snapshot(i, raw)
      case None => return Rejected, [HeardDown(i, UndecodableSnapshot)];
      case Some(body) => outcome, heard := LoadSnapshot(i, body, time);
    }

    method LoadRawVerification(dec: Decoders, i: nat, raw: seq<byte>) returns (verdict: Verification, heard: seq<Heard>)
      requires Valid()
      modifies this
      ensures Valid() && (View(), verdict, heard) == TakeRawVerificationSnapshot(dec, old(View()), i, raw)
    {
      if verifying != Some(i) || loaded || i >= |syncs| {
        return NotRunning, [];
      }
      match dec.snapshot(i, raw)
      case None =>
        Cancel();
        return Unusable, [];
      case Some(body) => verdict, heard := LoadVerification(i, body);
    }

    method ResetBooks()
      requires Valid()
      modifies this
      ensures Valid() && View() == ResetAll(old(View()))
    {
      ResetAllInv(View());
      var k := 0;
      while k < |syncs|
        invariant 0 <= k <= |syncs| == |old(syncs)|
        invariant (shadow, verifying, loaded) == old((shadow, verifying, loaded))
        invariant forall i :: 0 <= i < |syncs| ==> syncs[i] == if i < k then Reset(old(syncs[i])) else old(syncs[i])
      {
        syncs := syncs[k := Reset(syncs[k])];
        k := k + 1;
      }
      assert syncs == ResetAll(old(View())).syncs;
      Cancel();
    }
  }
}
