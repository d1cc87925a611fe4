/** Turning received bytes into WebSocket events (crates/bowst-venue/src/ws/reader.rs; sections 5.2
    and 5.4 of RFC 6455).

    `Drain` says what a connection's bytes mean, read in one go. The class `WsReader` reads them as
    they arrive, in a fixed buffer that it compacts, and is proved to find the same events. */
module WsReaders {
  import opened Common
  import opened ByteCodec
  import opened WsFrames

  datatype WsEvent =
    | TextEvent(payload: seq<byte>)
    | BinaryEvent(payload: seq<byte>)
    | PingEvent(payload: seq<byte>)
    | PongEvent(payload: seq<byte>)
    | CloseEvent(code: Option<nat>, reason: seq<byte>)

  datatype ReaderConfig = ReaderConfig(buffer: nat, maxFrame: nat, maxMessage: nat)

  const MAX_SERVER_HEADER: nat := 10

  /** The fragmented message in progress: its opcode, if there is one, and the bytes so far. */
  datatype Assembly = Assembly(fragment: Option<Opcode>, message: seq<byte>)

  const NOTHING: Assembly := Assembly(None, [])

  function DataEvent(op: Opcode, payload: seq<byte>): WsEvent {
    if op.Binary? then BinaryEvent(payload) else TextEvent(payload)
  }

  function CloseOf(payload: seq<byte>): Result<WsEvent, WsError> {
    if |payload| == 0 then Ok(CloseEvent(None, []))
    else if |payload| == 1 then Err(MalformedClose)
    else Ok(CloseEvent(Some(FromBE(payload[..2])), payload[2..]))
  }

  function Append(st: Assembly, payload: seq<byte>, limit: nat): Result<Assembly, WsError> {
    if |st.message| + |payload| > limit then Err(MessageTooLarge(limit))
    else Ok(st.(message := st.message + payload))
  }

  /** `on_frame`: what one whole frame does to the message in progress, and the event it completes. */
  function OnFrame(st: Assembly, f: Frame, limit: nat): Result<(Assembly, Option<WsEvent>), WsError> {
    match f.opcode
    case Ping => Ok((st, Some(PingEvent(f.payload))))
    case Pong => Ok((st, Some(PongEvent(f.payload))))
    case Close =>
      (match CloseOf(f.payload)
       case Err(e) => Err(e)
       case Ok(event) => Ok((st, Some(event))))
    case Continuation =>
      if st.fragment.None? then Err(UnexpectedFragment)
      else (
        match Append(st, f.payload, limit)
        case Err(e) => Err(e)
        case Ok(st') =>
          if f.fin then Ok((st'.(fragment := None), Some(DataEvent(st.fragment.value, st'.message))))
              else Ok((st', None))
      )
    case _ =>
      if st.fragment.Some? then Err(UnexpectedFragment)
      else if f.fin then Ok((st, Some(DataEvent(f.opcode, f.payload))))
      else (
        match Append(Assembly(Some(f.opcode), []), f.payload, limit)
        case Err(e) => Err(e)
        case Ok(st') => Ok((st', None))
      )
  }

  /** One frame off the front of `bytes`. */
  datatype Framed = NeedMore | BadFrame(error: WsError) | Got(st: Assembly, event: Option<WsEvent>, rest: seq<byte>)

  function TakeFrame(cfg: ReaderConfig, st: Assembly, bytes: seq<byte>): (r: Framed)
    ensures r.Got? ==> |r.rest| < |bytes|
  {
    match ParseHeader(bytes, cfg.maxFrame)
    case Err(e) => BadFrame(e)
    case Ok(None) => NeedMore
    case Ok(Some(h)) =>
      var len := h.headerLen + h.payloadLen;
      if |bytes| < len then NeedMore
      else
        match OnFrame(st, Frame(h.fin, h.opcode, bytes[h.headerLen..len]), cfg.maxMessage)
        case Err(e) => BadFrame(e)
        case Ok((st', event)) => Got(st', event, bytes[len..])
  }

  /** Everything `bytes` hold: the events, then either what is left or the first error. */
  datatype Drained = Drained(events: seq<WsEvent>, st: Assembly, rest: seq<byte>, error: Option<WsError>)

  function Events(event: Option<WsEvent>): seq<WsEvent> {
    if event.Some? then [event.value] else []
  }

  function Drain(cfg: ReaderConfig, st: Assembly, bytes: seq<byte>): Drained
    decreases |bytes|
  {
    match TakeFrame(cfg, st, bytes)
    case NeedMore => Drained([], st, bytes, None)
    case BadFrame(e) => Drained([], st, bytes, Some(e))
    case Got(st', event, rest) =>
      var d := Drain(cfg, st', rest);
      d.(events := Events(event) + d.events)
  }

  // ---------------------------------------------------------------- deliveries in pieces

  /** A frame found in the bytes so far is the frame found when more arrive. */
  lemma FrameStable(cfg: ReaderConfig, st: Assembly, a: seq<byte>, b: seq<byte>)
    requires !TakeFrame(cfg, st, a).NeedMore?
    ensures var r := TakeFrame(cfg, st, a);
            TakeFrame(cfg, st, a + b) == if r.Got? then r.(rest := r.rest + b) else r
  {
    HeaderStable(a, b, cfg.maxFrame);
    var h := ParseHeader(a, cfg.maxFrame);
    if h.Ok? {
      var n, len := h.value.value.headerLen, h.value.value.headerLen + h.value.value.payloadLen;
      assert (a + b)[n..len] == a[n..len];
      assert (a + b)[len..] == a[len..] + b;
    }
  }

  function After(d: Drained, more: Drained): Drained {
    more.(events := d.events + more.events)
  }

  /** `whole` is what draining `a` (giving `d`) and then `b` amounts to. */
  ghost predicate Splits(cfg: ReaderConfig, d: Drained, b: seq<byte>, whole: Drained) {
    if d.error.Some? then whole.events == d.events && whole.error == d.error
    else whole == After(d, Drain(cfg, d.st, d.rest + b))
  }

  lemma SplitsAfterFrame(cfg: ReaderConfig, event: Option<WsEvent>, d: Drained, b: seq<byte>, whole: Drained)
    requires Splits(cfg, d, b, whole)
    ensures Splits(cfg, d.(events := Events(event) + d.events), b, whole.(events := Events(event) + whole.events))
  {
    if d.error.None? {
      var more := Drain(cfg, d.st, d.rest + b);
      assert Events(event) + (d.events + more.events) == (Events(event) + d.events) + more.events;
    }
  }

  /** Draining what has arrived and then the rest is draining everything at once. */
  lemma {:induction false} DrainSplit(cfg: ReaderConfig, st: Assembly, a: seq<byte>, b: seq<byte>)
    ensures Splits(cfg, Drain(cfg, st, a), b, Drain(cfg, st, a + b))
    decreases |a|
  {
    var r := TakeFrame(cfg, st, a);
    if r.NeedMore? {
      var whole := Drain(cfg, st, a + b);
      assert [] + whole.events == whole.events;
    } else {
      FrameStable(cfg, st, a, b);
      if r.Got? {
        DrainSplit(cfg, r.st, r.rest, b);
        SplitsAfterFrame(cfg, r.event, Drain(cfg, r.st, r.rest), b, Drain(cfg, r.st, r.rest + b));
      }
    }
  }

  function Flatten(chunks: seq<seq<byte>>): seq<byte> {
    if chunks == [] then [] else Flatten(chunks[..|chunks| - 1]) + chunks[|chunks| - 1]
  }

  /** A connection read in deliveries, with a drain after each; nothing is read after an error. */
  function Deliver(cfg: ReaderConfig, chunks: seq<seq<byte>>): Drained {
    var n := |chunks|;
    if n == 0 then Drained([], NOTHING, [], None)
    else
      var d := Deliver(cfg, chunks[..n - 1]);
      if d.error.Some? then d else After(d, Drain(cfg, d.st, d.rest + chunks[n - 1]))
  }

  /** However the bytes are split into deliveries, the events and the first error are those of the
      whole stream parsed at once. */
  lemma {:induction false} DeliveriesAgree(cfg: ReaderConfig, chunks: seq<seq<byte>>)
    ensures var d, whole := Deliver(cfg, chunks), Drain(cfg, NOTHING, Flatten(chunks));
            d.events == whole.events && d.error == whole.error && (d.error.None? ==> d == whole)
  {
    var n := |chunks|;
    if n > 0 {
      DeliveriesAgree(cfg, chunks[..n - 1]);
      DrainSplit(cfg, NOTHING, Flatten(chunks[..n - 1]), chunks[n - 1]);
    }
  }

  // ---------------------------------------------------------------- the buffer never stalls

  /** What waits for more bytes is shorter than one whole frame of the largest kind. */
  lemma WaitingIsShort(cfg: ReaderConfig, st: Assembly, bytes: seq<byte>)
    requires TakeFrame(cfg, st, bytes).NeedMore?
    ensures |bytes| < MAX_SERVER_HEADER + cfg.maxFrame
  {
  }

  /** What `spare` makes of the unconsumed range `start..end` of a buffer of `len` bytes. */
  function MakeRoom(start: nat, end: nat, len: nat, maxFrame: nat): (nat, nat)
    requires start <= end <= len
  {
    if start == end then (0, 0)
    else if start > 0 && len - end < maxFrame then (0, end - start)
    else (start, end)
  }

  /** A reader between deliveries: where the unconsumed bytes lie in its buffer, what they are, and
      the message in progress. */
  datatype ReaderState = ReaderState(start: nat, end: nat, st: Assembly, pending: seq<byte>)

  predicate Placed(cfg: ReaderConfig, s: ReaderState) {
    s.start + |s.pending| == s.end <= cfg.buffer && TakeFrame(cfg, s.st, s.pending).NeedMore?
  }

  /** The state after a delivery that fits and the drain that follows it, unless that ends in an error. */
  function Receive(cfg: ReaderConfig, s: ReaderState, chunk: seq<byte>): (r: Option<ReaderState>)
    requires Placed(cfg, s)
    ensures r.Some? ==> Placed(cfg, r.value)
  {
    DrainEnds(cfg, s.st, s.pending + chunk);
    var end := MakeRoom(s.start, s.end, cfg.buffer, cfg.maxFrame).1 + |chunk|;
    Settle(cfg, end, Drain(cfg, s.st, s.pending + chunk))
  }

  /** The state after draining a buffer whose bytes end at `end`. */
  function Settle(cfg: ReaderConfig, end: nat, d: Drained): Option<ReaderState>
    requires |d.rest| <= end
  {
    if end > cfg.buffer || d.error.Some? then None else Some(ReaderState(end - |d.rest|, end, d.st, d.rest))
  }

  lemma {:induction false} DrainEnds(cfg: ReaderConfig, st: Assembly, bytes: seq<byte>)
    ensures var d := Drain(cfg, st, bytes);
            |d.rest| <= |bytes| && (d.error.None? ==> TakeFrame(cfg, d.st, d.rest).NeedMore?)
    decreases |bytes|
  {
    var r := TakeFrame(cfg, st, bytes);
    if r.Got? { DrainEnds(cfg, r.st, r.rest); }
  }

  /** The state a new reader is in after some deliveries, each drained. */
  function ReceiveAll(cfg: ReaderConfig, chunks: seq<seq<byte>>): (r: Option<ReaderState>)
    ensures r.Some? ==> Placed(cfg, r.value)
  {
    if chunks == [] then
      NewReaderWaits(cfg);
      Some(NEW_READER)
    else
      match ReceiveAll(cfg, chunks[..|chunks| - 1])
      case None => None
      case Some(s) => Receive(cfg, s, chunks[|chunks| - 1])
  }

  /** The reader waits for more bytes and has no room to receive any. */
  predicate Stalled(cfg: ReaderConfig, s: ReaderState)
    requires Placed(cfg, s)
  {
    MakeRoom(s.start, s.end, cfg.buffer, cfg.maxFrame).1 == cfg.buffer
  }

  /** `k` empty pings, and then `tail`. */
  function Pings(k: nat, tail: seq<byte>): (r: seq<byte>)
    ensures |r| == 2 * k + |tail|
  {
    if k == 0 then tail else [0x89, 0] + Pings(k - 1, tail)
  }

  lemma TakesPing(cfg: ReaderConfig, rest: seq<byte>)
    ensures TakeFrame(cfg, NOTHING, [0x89, 0] + rest) == Got(NOTHING, Some(PingEvent([])), rest)
  {
    var bytes := [0x89, 0] + rest;
    assert bytes[2..2] == [] && bytes[2..] == rest;
  }

  ghost predicate DrainsTo(cfg: ReaderConfig, bytes: seq<byte>, tail: seq<byte>) {
    var d := Drain(cfg, NOTHING, bytes);
    d.st == NOTHING && d.rest == tail && d.error.None?
  }

  lemma DrainsPing(cfg: ReaderConfig, rest: seq<byte>, tail: seq<byte>)
    requires DrainsTo(cfg, rest, tail)
    ensures DrainsTo(cfg, [0x89, 0] + rest, tail)
  {
    TakesPing(cfg, rest);
  }

  lemma {:induction false} DrainsPings(cfg: ReaderConfig, k: nat, tail: seq<byte>)
    requires TakeFrame(cfg, NOTHING, tail).NeedMore?
    ensures DrainsTo(cfg, Pings(k, tail), tail)
  {
    if k > 0 {
      DrainsPings(cfg, k - 1, tail);
      DrainsPing(cfg, Pings(k - 1, tail), tail);
    }
  }

  const NEW_READER: ReaderState := ReaderState(0, 0, NOTHING, [])

  lemma NewReaderWaits(cfg: ReaderConfig)
    ensures Placed(cfg, NEW_READER)
  {
  }

  /** A first delivery that drains to `tail`. */
  lemma ReceiveFirst(cfg: ReaderConfig, chunk: seq<byte>, tail: seq<byte>)
    requires Placed(cfg, NEW_READER) && DrainsTo(cfg, chunk, tail) && |tail| <= |chunk| <= cfg.buffer
    ensures Receive(cfg, NEW_READER, chunk) == Some(ReaderState(|chunk| - |tail|, |chunk|, NOTHING, tail))
  {
    NothingBefore(chunk);
    var d := Drain(cfg, NOTHING, chunk);
    assert Settle(cfg, |chunk|, d) == Some(ReaderState(|chunk| - |tail|, |chunk|, NOTHING, tail));
  }

  lemma NothingBefore(chunk: seq<byte>)
    ensures NEW_READER.pending + chunk == chunk
  {
  }

  lemma ReceiveOne(cfg: ReaderConfig, chunk: seq<byte>)
    ensures Placed(cfg, NEW_READER) && ReceiveAll(cfg, [chunk]) == Receive(cfg, NEW_READER, chunk)
  {
    NewReaderWaits(cfg);
    assert [chunk][..0] == [];
    assert ReceiveAll(cfg, []) == Some(NEW_READER);
  }

  lemma ReceiveDrained(cfg: ReaderConfig, chunk: seq<byte>, tail: seq<byte>)
    requires DrainsTo(cfg, chunk, tail) && |tail| <= |chunk| <= cfg.buffer
    ensures ReceiveAll(cfg, [chunk]) == Some(ReaderState(|chunk| - |tail|, |chunk|, NOTHING, tail))
  {
    ReceiveOne(cfg, chunk);
    ReceiveFirst(cfg, chunk, tail);
  }

  /** One delivery of empty pings and a tail that is no whole frame. */
  lemma ReceivePings(cfg: ReaderConfig, k: nat, tail: seq<byte>)
    requires TakeFrame(cfg, NOTHING, tail).NeedMore? && 2 * k + |tail| <= cfg.buffer
    ensures ReceiveAll(cfg, [Pings(k, tail)]) == Some(ReaderState(2 * k, 2 * k + |tail|, NOTHING, tail))
  {
    DrainsPings(cfg, k, tail);
    ReceiveDrained(cfg, Pings(k, tail), tail);
  }

  /** Bytes that fill a buffer of `n` bytes with empty pings and the beginning of one more header. */
  function Filler(n: nat): (r: seq<byte>)
    requires n >= 2
    ensures |r| == n
  {
    if n % 2 == 1 then Pings(n / 2, [0x89]) else Pings(n / 2 - 1, [0x82, 126])
  }

  /** A reader that allows only empty frames, having received and drained one full buffer, waits for
      the rest of a header with no room for it. */
  lemma FillerStalls(cfg: ReaderConfig)
    requires cfg.maxFrame == 0 && cfg.buffer >= MAX_SERVER_HEADER
    ensures var s := ReceiveAll(cfg, [Filler(cfg.buffer)]);
            s.Some? && s.value.start > 0 && Stalled(cfg, s.value)
  {
    var n := cfg.buffer;
    if n % 2 == 1 { ReceivePings(cfg, n / 2, [0x89]); } else { ReceivePings(cfg, n / 2 - 1, [0x82, 126]); }
  }

  /** Five empty pings and a byte of a sixth, in a buffer of eleven bytes. */
  lemma ElevenBytesStall()
    ensures var cfg := ReaderConfig(11, 0, 0);
            && ReceiveAll(cfg, [Pings(5, [0x89])]) == Some(ReaderState(10, 11, NOTHING, [0x89]))
            && MakeRoom(10, 11, 11, 0) == (10, 11)
  {
    ReceivePings(ReaderConfig(11, 0, 0), 5, [0x89]);
  }

  /** Once drained, a reader that allows frames of at least one byte always has room to receive. */
  lemma NeverStalls(cfg: ReaderConfig, s: ReaderState)
    requires cfg.maxFrame >= 1 && cfg.maxFrame + MAX_SERVER_HEADER <= cfg.buffer && Placed(cfg, s)
    ensures !Stalled(cfg, s)
  {
    WaitingIsShort(cfg, s.st, s.pending);
  }

  /** A reader can be brought to wait for bytes it has no room for, by some deliveries with a drain
      after each, exactly when it allows only empty frames. */
  lemma StallsIff(cfg: ReaderConfig)
    requires cfg.maxFrame + MAX_SERVER_HEADER <= cfg.buffer
    ensures cfg.maxFrame == 0 <==>
            exists chunks :: ReceiveAll(cfg, chunks).Some? && Stalled(cfg, ReceiveAll(cfg, chunks).value)
  {
    if cfg.maxFrame == 0 {
      FillerStalls(cfg);
    } else {
      forall chunks | ReceiveAll(cfg, chunks).Some? ensures !Stalled(cfg, ReceiveAll(cfg, chunks).value) {
        NeverStalls(cfg, ReceiveAll(cfg, chunks).value);
      }
    }
  }

  // ---------------------------------------------------------------- frames and messages

  function Encode(frames: seq<Frame>): seq<byte> {
    if frames == [] then [] else EncodeServerFrame(frames[0]) + Encode(frames[1..])
  }

  /** What a list of whole frames means, without any bytes. */
  function Assemble(cfg: ReaderConfig, st: Assembly, frames: seq<Frame>): (seq<WsEvent>, Assembly, Option<WsError>)
    decreases |frames|
  {
    if frames == [] then ([], st, None)
    else
      match OnFrame(st, frames[0], cfg.maxMessage)
      case Err(e) => ([], st, Some(e))
      case Ok((st', event)) =>
        var (events, st'', error) := Assemble(cfg, st', frames[1..]);
        (Events(event) + events, st'', error)
  }

  lemma TakesEncoded(cfg: ReaderConfig, st: Assembly, f: Frame, rest: seq<byte>)
    requires LegalFrame(f) && |f.payload| <= cfg.maxFrame
    ensures TakeFrame(cfg, st, EncodeServerFrame(f) + rest)
         == match OnFrame(st, f, cfg.maxMessage)
            case Err(e) => BadFrame(e)
            case Ok((st', event)) => Got(st', event, rest)
  {
    HeaderRoundTrip(f, rest, cfg.maxFrame);
    var bytes := EncodeServerFrame(f) + rest;
    var n := 1 + |LengthField(|f.payload|)|;
    assert bytes[n..n + |f.payload|] == f.payload;
    assert bytes[n + |f.payload|..] == rest;
  }

  /** Bytes that are frames laid end to end are read as exactly those frames. */
  lemma {:induction false} DrainsEncoded(cfg: ReaderConfig, st: Assembly, frames: seq<Frame>)
    requires forall f :: f in frames ==> LegalFrame(f) && |f.payload| <= cfg.maxFrame
    ensures var d := Drain(cfg, st, Encode(frames));
            var (events, st', error) := Assemble(cfg, st, frames);
            d.events == events && d.error == error && (error.None? ==> d.st == st' && d.rest == [])
    decreases |frames|
  {
    if frames != [] {
      assert frames[0] in frames;
      TakesEncoded(cfg, st, frames[0], Encode(frames[1..]));
      match OnFrame(st, frames[0], cfg.maxMessage)
      case Err(_) =>
      case Ok((st', _)) => DrainsEncoded(cfg, st', frames[1..]);
    }
  }

  /** A fragment of a message, and the control frames sent before it. */
  datatype Piece = Piece(controls: seq<Frame>, part: seq<byte>)

  /** The frames of a message of type `op` sent in pieces: section 5.4 of RFC 6455 opens with the
      message's opcode, continues with continuation frames, sets `fin` on the last one, and lets
      control frames come in between. `first` tells whether the opening fragment is still to come. */
  function Fragments(op: Opcode, pieces: seq<Piece>, first: bool): seq<Frame> {
    if pieces == [] then []
    else
      pieces[0].controls + [Frame(|pieces| == 1, if first then op else Continuation, pieces[0].part)]
      + Fragments(op, pieces[1..], false)
  }

  function Parts(pieces: seq<Piece>): seq<byte> {
    if pieces == [] then [] else pieces[0].part + Parts(pieces[1..])
  }

  /** What a control frame tells by itself: a close frame carries nothing, or a code of two bytes, the
      higher one first, and a reason (section 5.5.1 of RFC 6455). */
  function ControlEvent(f: Frame): WsEvent
    requires RightControl(f)
  {
    match f.opcode
    case Ping => PingEvent(f.payload)
    case Pong => PongEvent(f.payload)
    case Close =>
      if f.payload == [] then CloseEvent(None, [])
      else CloseEvent(Some(TwoByteCode(f.payload[0], f.payload[1])), f.payload[2..])
  }

  function TwoByteCode(hi: nat, lo: nat): nat {
    256 * hi + lo
  }

  function ControlEvents(controls: seq<Frame>): seq<WsEvent>
    requires RightControls(controls)
  {
    if controls == [] then [] else [ControlEvent(controls[0])] + ControlEvents(controls[1..])
  }

  function AllControlEvents(pieces: seq<Piece>): seq<WsEvent>
    requires LegalPieces(pieces)
  {
    if pieces == [] then [] else ControlEvents(pieces[0].controls) + AllControlEvents(pieces[1..])
  }

  /** A control frame, which is not a close frame with half a code. */
  predicate RightControl(f: Frame) {
    IsControl(f.opcode) && (f.opcode.Close? ==> |f.payload| != 1)
  }

  predicate RightControls(controls: seq<Frame>) {
    forall f :: f in controls ==> RightControl(f)
  }

  predicate LegalPieces(pieces: seq<Piece>) {
    forall p :: p in pieces ==> RightControls(p.controls)
  }

  lemma TwoBytes(hi: byte, lo: byte)
    ensures FromBE([hi, lo]) == TwoByteCode(hi, lo)
  {
    assert [hi, lo][..1] == [hi];
    assert [hi][..0] == [];
    assert FromBE([]) == 0;
    assert FromBE([hi]) == hi;
  }

  lemma ControlTells(st: Assembly, f: Frame, limit: nat)
    requires RightControl(f)
    ensures OnFrame(st, f, limit) == Ok((st, Some(ControlEvent(f))))
  {
    if f.opcode.Close? && f.payload != [] {
      assert f.payload[..2] == [f.payload[0], f.payload[1]];
      TwoBytes(f.payload[0], f.payload[1]);
    }
  }

  /** Control frames are reported as they come and leave the message in progress alone. */
  lemma {:induction false} AssemblesControls(cfg: ReaderConfig, st: Assembly, controls: seq<Frame>, more: seq<Frame>)
    requires RightControls(controls)
    ensures var (events, st', error) := Assemble(cfg, st, more);
            Assemble(cfg, st, controls + more) == (ControlEvents(controls) + events, st', error)
    decreases |controls|
  {
    if controls == [] {
      assert controls + more == more;
      assert [] + Assemble(cfg, st, more).0 == Assemble(cfg, st, more).0;
    } else {
      assert controls[0] in controls;
      assert (controls + more)[1..] == controls[1..] + more;
      AssemblesControls(cfg, st, controls[1..], more);
      ControlTells(st, controls[0], cfg.maxMessage);
      var head := [ControlEvent(controls[0])];
      assert head + (ControlEvents(controls[1..]) + Assemble(cfg, st, more).0)
          == (head + ControlEvents(controls[1..])) + Assemble(cfg, st, more).0;
    }
  }

  /** One frame of a message, the controls before it, and then the rest. */
  lemma AssemblesPiece(cfg: ReaderConfig, st: Assembly, p: Piece, f: Frame, more: seq<Frame>, st': Assembly,
                       event: Option<WsEvent>)
    requires RightControls(p.controls) && OnFrame(st, f, cfg.maxMessage) == Ok((st', event))
    ensures var (events, st'', error) := Assemble(cfg, st', more);
            Assemble(cfg, st, p.controls + [f] + more)
                == (ControlEvents(p.controls) + (Events(event) + events), st'', error)
  {
    assert ([f] + more)[1..] == more;
    assert p.controls + [f] + more == p.controls + ([f] + more);
    AssemblesControls(cfg, st, p.controls, [f] + more);
  }

  /** A piece that completes its message. */
  lemma AssemblesLast(cfg: ReaderConfig, st: Assembly, p: Piece, f: Frame, st': Assembly, event: WsEvent)
    requires RightControls(p.controls) && OnFrame(st, f, cfg.maxMessage) == Ok((st', Some(event)))
    ensures Assemble(cfg, st, p.controls + [f] + []) == (ControlEvents(p.controls) + [event], st', None)
  {
    AssemblesPiece(cfg, st, p, f, [], st', Some(event));
    assert Events(Some(event)) + Assemble(cfg, st', []).0 == [event];
  }

  lemma Regroup(a: seq<WsEvent>, b: seq<WsEvent>, c: seq<WsEvent>)
    ensures a + ([] + (b + c)) == (a + b) + c
  {
  }

  /** The rest of a message, after its opening fragment. */
  lemma {:induction false} AssemblesRest(cfg: ReaderConfig, op: Opcode, soFar: seq<byte>, pieces: seq<Piece>)
    requires pieces != [] && LegalPieces(pieces) && |soFar| + |Parts(pieces)| <= cfg.maxMessage
    ensures var whole := soFar + Parts(pieces);
            Assemble(cfg, Assembly(Some(op), soFar), Fragments(op, pieces, false))
            == (AllControlEvents(pieces) + [DataEvent(op, whole)], Assembly(None, whole), None)
    decreases |pieces|
  {
    var st := Assembly(Some(op), soFar);
    var p, rest := pieces[0], pieces[1..];
    assert p in pieces;
    var f := Frame(|pieces| == 1, Continuation, p.part);
    var whole := soFar + Parts(pieces);
    assert whole == (soFar + p.part) + Parts(rest);
    if rest == [] {
      assert whole == soFar + p.part;
      AssemblesLast(cfg, st, p, f, Assembly(None, whole), DataEvent(op, whole));
      assert AllControlEvents(pieces) == ControlEvents(p.controls);
    } else {
      AssemblesRest(cfg, op, soFar + p.part, rest);
      AssemblesPiece(cfg, st, p, f, Fragments(op, rest, false), Assembly(Some(op), soFar + p.part), None);
      Regroup(ControlEvents(p.controls), AllControlEvents(rest), [DataEvent(op, whole)]);
    }
  }

  /** However a text or binary message is cut into fragments, and whatever control frames come in
      between, it is delivered once, whole and after them; only a message in more than one fragment
      is held to the message limit. */
  lemma AssemblesMessage(cfg: ReaderConfig, before: seq<byte>, op: Opcode, pieces: seq<Piece>)
    requires op.Text? || op.Binary?
    requires pieces != [] && LegalPieces(pieces) && (|pieces| > 1 ==> |Parts(pieces)| <= cfg.maxMessage)
    ensures var (events, st, error) := Assemble(cfg, Assembly(None, before), Fragments(op, pieces, true));
            var message := if op.Binary? then BinaryEvent(Parts(pieces)) else TextEvent(Parts(pieces));
            events == AllControlEvents(pieces) + [message] && st.fragment.None? && error.None?
  {
    var st := Assembly(None, before);
    var p, rest := pieces[0], pieces[1..];
    assert p in pieces;
    var f := Frame(|pieces| == 1, op, p.part);
    if rest == [] {
      assert Parts(pieces) == p.part;
      AssemblesLast(cfg, st, p, f, st, DataEvent(op, p.part));
      assert AllControlEvents(pieces) == ControlEvents(p.controls);
    } else {
      assert [] + p.part == p.part;
      AssemblesRest(cfg, op, p.part, rest);
      AssemblesPiece(cfg, st, p, f, Fragments(op, rest, false), Assembly(Some(op), p.part), None);
      Regroup(ControlEvents(p.controls), AllControlEvents(rest), [DataEvent(op, Parts(pieces))]);
    }
  }

  // ---------------------------------------------------------------- whole streams

  /** A message, in pieces. */
  datatype Item = Item(op: Opcode, pieces: seq<Piece>)

  predicate RightItem(cfg: ReaderConfig, m: Item) {
    && (m.op.Text? || m.op.Binary?) && m.pieces != [] && LegalPieces(m.pieces)
    && (|m.pieces| > 1 ==> |Parts(m.pieces)| <= cfg.maxMessage)
  }

  predicate RightItems(cfg: ReaderConfig, items: seq<Item>) {
    forall m :: m in items ==> RightItem(cfg, m)
  }

  function ItemFrames(items: seq<Item>): seq<Frame> {
    if items == [] then [] else Fragments(items[0].op, items[0].pieces, true) + ItemFrames(items[1..])
  }

  function ItemEvents(cfg: ReaderConfig, items: seq<Item>): seq<WsEvent>
    requires RightItems(cfg, items)
  {
    if items == [] then []
    else
      assert items[0] in items;
      var whole := Parts(items[0].pieces);
      AllControlEvents(items[0].pieces)
      + [if items[0].op.Binary? then BinaryEvent(whole) else TextEvent(whole)]
      + ItemEvents(cfg, items[1..])
  }

  lemma {:induction false} AssembleSplit(cfg: ReaderConfig, st: Assembly, a: seq<Frame>, b: seq<Frame>)
    requires Assemble(cfg, st, a).2.None?
    ensures var (events, st', _) := Assemble(cfg, st, a);
            var (more, st'', error) := Assemble(cfg, st', b);
            Assemble(cfg, st, a + b) == (events + more, st'', error)
    decreases |a|
  {
    if a == [] {
      assert a + b == b;
      assert [] + Assemble(cfg, st, b).0 == Assemble(cfg, st, b).0;
    } else {
      var (st', event) := OnFrame(st, a[0], cfg.maxMessage).value;
      assert (a + b)[1..] == a[1..] + b;
      AssembleSplit(cfg, st', a[1..], b);
      var (events, st'', _) := Assemble(cfg, st', a[1..]);
      Associates(Events(event), events, Assemble(cfg, st'', b).0);
    }
  }

  lemma {:induction false} AssemblesItems(cfg: ReaderConfig, before: seq<byte>, items: seq<Item>)
    requires RightItems(cfg, items)
    ensures var (events, st, error) := Assemble(cfg, Assembly(None, before), ItemFrames(items));
            events == ItemEvents(cfg, items) && st.fragment.None? && error.None?
    decreases |items|
  {
    if items != [] {
      assert items[0] in items;
      AssemblesMessage(cfg, before, items[0].op, items[0].pieces);
      var st := Assemble(cfg, Assembly(None, before), Fragments(items[0].op, items[0].pieces, true)).1;
      AssemblesItems(cfg, st.message, items[1..]);
      AssembleSplit(cfg, Assembly(None, before), Fragments(items[0].op, items[0].pieces, true), ItemFrames(items[1..]));
    }
  }

  /** The frames of a message of which more is to come. */
  function Opening(op: Opcode, pieces: seq<Piece>, first: bool): seq<Frame> {
    if pieces == [] then []
    else
      pieces[0].controls + [Frame(false, if first then op else Continuation, pieces[0].part)]
      + Opening(op, pieces[1..], false)
  }

  lemma NothingBetween(a: seq<WsEvent>, b: seq<WsEvent>)
    ensures a + ([] + b) == a + b
  {
  }

  lemma {:induction false} AssemblesMore(cfg: ReaderConfig, op: Opcode, soFar: seq<byte>, pieces: seq<Piece>)
    requires LegalPieces(pieces) && |soFar| + |Parts(pieces)| <= cfg.maxMessage
    ensures Assemble(cfg, Assembly(Some(op), soFar), Opening(op, pieces, false))
         == (AllControlEvents(pieces), Assembly(Some(op), soFar + Parts(pieces)), None)
    decreases |pieces|
  {
    if pieces == [] {
      assert soFar + [] == soFar;
    } else {
      var p, rest := pieces[0], pieces[1..];
      assert p in pieces;
      Associates(soFar, p.part, Parts(rest));
      AssemblesMore(cfg, op, soFar + p.part, rest);
      AssemblesPiece(cfg, Assembly(Some(op), soFar), p, Frame(false, Continuation, p.part), Opening(op, rest, false),
                     Assembly(Some(op), soFar + p.part), None);
      NothingBetween(ControlEvents(p.controls), AllControlEvents(rest));
    }
  }

  lemma OpensWith(cfg: ReaderConfig, before: seq<byte>, op: Opcode, part: seq<byte>)
    requires (op.Text? || op.Binary?) && |part| <= cfg.maxMessage
    ensures OnFrame(Assembly(None, before), Frame(false, op, part), cfg.maxMessage)
         == Ok((Assembly(Some(op), part), None))
  {
    assert [] + part == part;
  }

  lemma AssemblesOpening(cfg: ReaderConfig, before: seq<byte>, op: Opcode, pieces: seq<Piece>)
    requires (op.Text? || op.Binary?) && pieces != [] && LegalPieces(pieces) && |Parts(pieces)| <= cfg.maxMessage
    ensures Assemble(cfg, Assembly(None, before), Opening(op, pieces, true))
         == (AllControlEvents(pieces), Assembly(Some(op), Parts(pieces)), None)
  {
    var p, rest := pieces[0], pieces[1..];
    assert p in pieces;
    AssemblesMore(cfg, op, p.part, rest);
    OpensWith(cfg, before, op, p.part);
    AssemblesPiece(cfg, Assembly(None, before), p, Frame(false, op, p.part), Opening(op, rest, false),
                   Assembly(Some(op), p.part), None);
    NothingBetween(ControlEvents(p.controls), AllControlEvents(rest));
  }

  /** What a server has sent so far: whole messages, then possibly the beginning of one more, then control
      frames. `begun` is empty if no message is open. */
  datatype Sent = Sent(items: seq<Item>, op: Opcode, begun: seq<Piece>, controls: seq<Frame>)

  predicate RightSent(cfg: ReaderConfig, s: Sent) {
    && RightItems(cfg, s.items) && (s.op.Text? || s.op.Binary?) && LegalPieces(s.begun) && RightControls(s.controls)
    && |Parts(s.begun)| <= cfg.maxMessage
  }

  function SentFrames(s: Sent): seq<Frame> {
    ItemFrames(s.items) + Opening(s.op, s.begun, true) + s.controls
  }

  function SentEvents(cfg: ReaderConfig, s: Sent): seq<WsEvent>
    requires RightSent(cfg, s)
  {
    ItemEvents(cfg, s.items) + AllControlEvents(s.begun) + ControlEvents(s.controls)
  }

  lemma AssemblesSent(cfg: ReaderConfig, s: Sent)
    requires RightSent(cfg, s)
    ensures var (events, st, error) := Assemble(cfg, NOTHING, SentFrames(s));
            && events == SentEvents(cfg, s) && error.None?
            && (if s.begun == [] then st.fragment.None? else st == Assembly(Some(s.op), Parts(s.begun)))
  {
    var items, opening := ItemFrames(s.items), Opening(s.op, s.begun, true);
    AssemblesItems(cfg, [], s.items);
    var st := Assemble(cfg, NOTHING, items).1;
    if s.begun == [] {
      assert Assemble(cfg, st, opening) == (AllControlEvents(s.begun), st, None);
    } else {
      AssemblesOpening(cfg, st.message, s.op, s.begun);
    }
    AssembleSplit(cfg, NOTHING, items, opening);
    var st' := Assemble(cfg, st, opening).1;
    AssemblesControls(cfg, st', s.controls, []);
    assert s.controls + [] == s.controls && ControlEvents(s.controls) + [] == ControlEvents(s.controls);
    AssembleSplit(cfg, NOTHING, items + opening, s.controls);
  }

  /** What is wrong with sending `f` next, if anything. */
  function WrongNext(cfg: ReaderConfig, s: Sent, f: Frame): Option<WsError> {
    if f.opcode.Ping? || f.opcode.Pong? then None
    else if f.opcode.Close? then if |f.payload| == 1 then Some(MalformedClose) else None
    else if f.opcode.Continuation? != (s.begun != []) then Some(UnexpectedFragment)
    else if (s.begun != [] || !f.fin) && |Parts(s.begun)| + |f.payload| > cfg.maxMessage then
      Some(MessageTooLarge(cfg.maxMessage))
    else None
  }

  predicate ReadableFrames(cfg: ReaderConfig, frames: seq<Frame>) {
    forall f :: f in frames ==> LegalFrame(f) && |f.payload| <= cfg.maxFrame
  }

  /** Everything a server may send of whole frames, and the first frame with which it breaks the rules of
      section 5.4 of RFC 6455 or the message limit: the events of all before it are found, and then exactly
      that error. */
  lemma ReadsStreams(cfg: ReaderConfig, s: Sent, f: Frame)
    requires RightSent(cfg, s) && ReadableFrames(cfg, SentFrames(s) + [f])
    ensures Drain(cfg, NOTHING, Encode(SentFrames(s))).events == SentEvents(cfg, s)
    ensures Drain(cfg, NOTHING, Encode(SentFrames(s))).error.None?
    ensures Drain(cfg, NOTHING, Encode(SentFrames(s) + [f])).error == WrongNext(cfg, s, f)
    ensures WrongNext(cfg, s, f).Some? ==>
              Drain(cfg, NOTHING, Encode(SentFrames(s) + [f])).events == SentEvents(cfg, s)
  {
    var frames := SentFrames(s);
    assert forall g :: g in frames ==> g in frames + [f];
    AssemblesSent(cfg, s);
    DrainsEncoded(cfg, NOTHING, frames);
    DrainsEncoded(cfg, NOTHING, frames + [f]);
    AssembleSplit(cfg, NOTHING, frames, [f]);
    OneFrame(cfg, Assemble(cfg, NOTHING, frames).1, s, f);
    assert SentEvents(cfg, s) + [] == SentEvents(cfg, s);
  }

  lemma OneFrame(cfg: ReaderConfig, st: Assembly, s: Sent, f: Frame)
    requires if s.begun == [] then st.fragment.None? else st == Assembly(Some(s.op), Parts(s.begun))
    ensures Assemble(cfg, st, [f]).2 == WrongNext(cfg, s, f)
    ensures WrongNext(cfg, s, f).Some? ==> Assemble(cfg, st, [f]).0 == []
  {
  }

  // ---------------------------------------------------------------- the reader itself

  /** The next event, after any data fragments that complete none. */
  datatype Next = NoEvent(st: Assembly, rest: seq<byte>) | Failed(error: WsError)
      | Found(event: WsEvent, st: Assembly, rest: seq<byte>)

  function NextOf(cfg: ReaderConfig, st: Assembly, bytes: seq<byte>): Next
    decreases |bytes|
  {
    match TakeFrame(cfg, st, bytes)
    case NeedMore => NoEvent(st, bytes)
    case BadFrame(e) => Failed(e)
    case Got(st', Some(event), rest) => Found(event, st', rest)
    case Got(st', None, rest) => NextOf(cfg, st', rest)
  }

  function PutFirst(event: WsEvent, d: Drained): Drained {
    d.(events := [event] + d.events)
  }

  /** `d`, after the events already taken. */
  function Preceded(events: seq<WsEvent>, d: Drained): Drained {
    d.(events := events + d.events)
  }

  lemma PrecededByOneMore(events: seq<WsEvent>, event: WsEvent, d: Drained)
    ensures Preceded(events, PutFirst(event, d)) == Preceded(events + [event], d)
  {
    assert events + ([event] + d.events) == (events + [event]) + d.events;
  }

  /** Draining is taking the next event again and again. */
  lemma {:induction false} DrainByEvents(cfg: ReaderConfig, st: Assembly, bytes: seq<byte>)
    ensures var n, d := NextOf(cfg, st, bytes), Drain(cfg, st, bytes);
            if n.NoEvent? then d == Drained([], n.st, n.rest, None) && TakeFrame(cfg, n.st, n.rest).NeedMore?
            else if n.Failed? then d.events == [] && d.error == Some(n.error)
            else |n.rest| < |bytes| && d == PutFirst(n.event, Drain(cfg, n.st, n.rest))
    decreases |bytes|
  {
    match TakeFrame(cfg, st, bytes)
    case Got(st', None, rest) =>
      DrainByEvents(cfg, st', rest);
      assert [] + Drain(cfg, st', rest).events == Drain(cfg, st', rest).events;
    case _ =>
  }

  /** The next event, from what the frame at the front comes to. */
  lemma NextAfter(cfg: ReaderConfig, st: Assembly, bytes: seq<byte>)
    ensures var r := TakeFrame(cfg, st, bytes);
            NextOf(cfg, st, bytes)
            == if r.NeedMore? then NoEvent(st, bytes)
               else if r.BadFrame? then Failed(r.error)
               else if r.event.Some? then Found(r.event.value, r.st, r.rest)
               else NextOf(cfg, r.st, r.rest)
  {
  }

  class WsReader {
    const config: ReaderConfig
    const buf: array<byte>
    var start: nat
    var end: nat
    var message: seq<byte>
    var fragment: Option<Opcode>

    ghost predicate Valid()
      reads this
    {
      && buf.Length == config.buffer && config.maxFrame + MAX_SERVER_HEADER <= config.buffer
      && start <= end <= buf.Length
    }

    /** The bytes received but not yet consumed. */
    ghost function Pending(): seq<byte>
      requires Valid()
      reads this, buf
    {
      buf[start..end]
    }

    ghost function Assembling(): Assembly
      reads this
    {
      Assembly(fragment, message)
    }

    constructor (config: ReaderConfig)
      requires config.maxFrame + MAX_SERVER_HEADER <= config.buffer
      ensures Valid() && this.config == config && fresh(buf) && Pending() == [] && Assembling() == NOTHING
    {
      this.config := config;
      buf := new byte[config.buffer](i => 0);
      start, end, message, fragment := 0, 0, [], None;
    }

    method Reset()
      requires Valid()
      modifies this`start, this`end, this`message, this`fragment
      ensures Valid() && Pending() == [] && Assembling() == NOTHING
    {
      start, end, message, fragment := 0, 0, [], None;
    }

    /** Moves the unconsumed bytes to the front of the buffer. */
    method Compact()
      requires Valid()
      modifies this`start, this`end, buf
      ensures Valid() && Pending() == old(Pending()) && start == 0 && end == old(end - start)
    {
      var n := end - start;
      var k := 0;
      while k < n
        invariant 0 <= k <= n
        invariant unchanged(this)
        invariant forall i :: 0 <= i < k ==> buf[i] == old(buf[i + start])
        invariant forall i :: k <= i < buf.Length ==> buf[i] == old(buf[i])
      {
        buf[k] := buf[start + k];
        k := k + 1;
      }
      assert buf[..n] == old(buf[start..end]);
      start, end := 0, n;
    }

    /** Makes room to receive, moving unconsumed bytes to the front when little is left. */
    method Spare() returns (free: nat)
      requires Valid()
      modifies this`start, this`end, buf
      ensures Valid() && Pending() == old(Pending()) && free == buf.Length - end
      ensures (start, end) == MakeRoom(old(start), old(end), buf.Length, config.maxFrame)
      ensures TakeFrame(config, Assembling(), Pending()).NeedMore? && config.maxFrame >= 1 ==> free > 0
    {
      if TakeFrame(config, Assembling(), Pending()).NeedMore? {
        WaitingIsShort(config, Assembling(), Pending());
      }
      if start == end {
        start, end := 0, 0;
      } else if start > 0 && buf.Length - end < config.maxFrame {
        Compact();
      }
      free := buf.Length - end;
    }

    /** The transport's part: bytes read from the socket into the spare room. */
    method Fill(bytes: seq<byte>)
      requires Valid() && |bytes| <= buf.Length - end
      modifies buf, this`end
      ensures Valid() && Pending() == old(Pending()) + bytes
    {
      var k := 0;
      while k < |bytes|
        invariant 0 <= k <= |bytes|
        invariant end == old(end)
        invariant buf[start..end + k] == old(Pending()) + bytes[..k]
      {
        buf[end + k] := bytes[k];
        k := k + 1;
      }
      assert bytes[..k] == bytes;
      Commit(|bytes|);
    }

    method Commit(n: nat)
      requires Valid()
      modifies this`end
      ensures Valid() && end == Min(old(end) + n, buf.Length)
    {
      end := Min(end + n, buf.Length);
    }

    /** The header of the frame at the front and its whole length, once that many bytes are here. */
    method FrontFrame() returns (r: Result<Option<FrameHeader>, WsError>)
      requires Valid()
      ensures match ParseHeader(Pending(), config.maxFrame)
              case Err(e) => r == Err(e)
              case Ok(None) => r == Ok(None)
              case Ok(Some(h)) => r == if |Pending()| < h.headerLen + h.payloadLen then Ok(None) else Ok(Some(h))
    {
      r := ParseHeader(buf[start..end], config.maxFrame);
      if r.Ok? && r.value.Some? && end - start < r.value.value.headerLen + r.value.value.payloadLen {
        r := Ok(None);
      }
    }

    /** Consumes the frame at the front and hands its payload out. */
    method Consume(h: FrameHeader) returns (payload: seq<byte>)
      requires Valid() && h.headerLen + h.payloadLen <= |Pending()|
      modifies this`start
      ensures Valid()
      ensures payload == old(Pending())[h.headerLen..h.headerLen + h.payloadLen]
      ensures Pending() == old(Pending())[h.headerLen + h.payloadLen..]
    {
      var len := h.headerLen + h.payloadLen;
      var available := buf[start..end];
      payload := available[h.headerLen..len];
      assert buf[start + len..end] == available[len..];
      start := start + len;
    }

    /** Takes one frame: `Ok(None)` when its bytes are not all here, otherwise the event it completes, if any. */
    method TakeOne() returns (r: Result<Option<Option<WsEvent>>, WsError>)
      requires Valid()
      modifies this`start, this`message, this`fragment
      ensures Valid()
      ensures var t := TakeFrame(config, old(Assembling()), old(Pending()));
              if t.NeedMore? then r == Ok(None) && Assembling() == old(Assembling()) && Pending() == old(Pending())
              else if t.BadFrame? then r == Err(t.error)
              else r == Ok(Some(t.event)) && Assembling() == t.st && Pending() == t.rest
    {
      var parsed := FrontFrame();
      if parsed.Err? {
        return Err(parsed.error);
      }
      if parsed.value.None? {
        return Ok(None);
      }
      var h := parsed.value.value;
      var payload := Consume(h);
      var done := HandleFrame(Frame(h.fin, h.opcode, payload));
      if done.Err? {
        return Err(done.error);
      }
      return Ok(Some(done.value));
    }

    method NextEvent() returns (r: Result<Option<WsEvent>, WsError>)
      requires Valid()
      modifies this`start, this`message, this`fragment
      ensures Valid()
      ensures var n := NextOf(config, old(Assembling()), old(Pending()));
              if n.Failed? then r == Err(n.error)
              else r == Ok(if n.Found? then Some(n.event) else None) && Assembling() == n.st && Pending() == n.rest
    {
      while true
        invariant Valid()
        invariant NextOf(config, Assembling(), Pending()) == NextOf(config, old(Assembling()), old(Pending()))
        decreases |Pending()|
      {
        NextAfter(config, Assembling(), Pending());
        var taken := TakeOne();
        if taken.Err? {
          return Err(taken.error);
        }
        if taken.value.None? {
          return Ok(None);
        }
        if taken.value.value.Some? {
          return Ok(taken.value.value);
        }
      }
    }

    /** Updates the message in progress for one frame and decides which event, if any, it completes. */
    method HandleFrame(f: Frame) returns (r: Result<Option<WsEvent>, WsError>)
      modifies this`message, this`fragment
      ensures match OnFrame(old(Assembling()), f, config.maxMessage)
              case Err(e) => r == Err(e)
              case Ok((st, event)) => r == Ok(event) && Assembling() == st
    {
      match f.opcode
      case Ping => return Ok(Some(PingEvent(f.payload)));
      case Pong => return Ok(Some(PongEvent(f.payload)));
      case Close =>
        var closed := CloseOf(f.payload);
        if closed.Err? {
          return Err(closed.error);
        }
        return Ok(Some(closed.value));
      case Continuation =>
        if fragment.None? {
          return Err(UnexpectedFragment);
        }
        if |message| + |f.payload| > config.maxMessage {
          return Err(MessageTooLarge(config.maxMessage));
        }
        message := message + f.payload;
        if !f.fin {
          return Ok(None);
        }
        var op := fragment.value;
        fragment := None;
        return Ok(Some(DataEvent(op, message)));
      case _ =>
        if fragment.Some? {
          return Err(UnexpectedFragment);
        }
        if f.fin {
          return Ok(Some(DataEvent(f.opcode, f.payload)));
        }
        fragment := Some(f.opcode);
        message := [];
        if |f.payload| > config.maxMessage {
          return Err(MessageTooLarge(config.maxMessage));
        }
        message := message + f.payload;
        return Ok(None);
    }

    /** Takes events until more bytes are needed or the first error. */
    method DrainEvents() returns (events: seq<WsEvent>, error: Option<WsError>)
      requires Valid()
      modifies this`start, this`message, this`fragment
      ensures Valid()
      ensures var d := Drain(config, old(Assembling()), old(Pending()));
              && events == d.events && error == d.error
              && (error.None? ==> Assembling() == d.st && Pending() == d.rest)
              && (error.None? ==> TakeFrame(config, d.st, d.rest).NeedMore?)
    {
      events := [];
      while true
        invariant Valid()
        invariant Drain(config, old(Assembling()), old(Pending()))
                  == Preceded(events, Drain(config, Assembling(), Pending()))
        decreases |Pending()|
      {
        DrainByEvents(config, Assembling(), Pending());
        var next := NextEvent();
        if next.Err? {
          return events, Some(next.error);
        }
        if next.value.None? {
          return events, None;
        }
        PrecededByOneMore(events, next.value.value, Drain(config, Assembling(), Pending()));
        events := events + [next.value.value];
      }
    }

    /** A connection from its first byte: receive whatever the socket has into the spare room, drain,
        and go round again. Whatever sizes the socket chooses, this never runs out of room, and the
        events and the first error are those of the whole stream read at once. */
    method ReadStream(bytes: seq<byte>) returns (events: seq<WsEvent>, error: Option<WsError>)
      requires Valid() && config.maxFrame >= 1 && Pending() == [] && Assembling() == NOTHING
      modifies this, buf
      ensures Valid()
      ensures events == Drain(config, NOTHING, bytes).events && error == Drain(config, NOTHING, bytes).error
    {
      events, error := [], None;
      var pos := 0;
      while pos < |bytes|
        invariant Valid() && 0 <= pos <= |bytes|
        invariant Drain(config, NOTHING, bytes[..pos]) == Drained(events, Assembling(), Pending(), None)
        invariant TakeFrame(config, Assembling(), Pending()).NeedMore?
      {
        var free := Spare();
        var n: nat :| 1 <= n <= free && pos + n <= |bytes|;
        CutAt(bytes, pos, n);
        DrainSplit(config, NOTHING, bytes[..pos], bytes[pos..pos + n]);
        Fill(bytes[pos..pos + n]);
        var more, failed := DrainEvents();
        events := events + more;
        if failed.Some? {
          ErrorStays(config, bytes[..pos + n], bytes[pos + n..]);
          return events, failed;
        }
        pos := pos + n;
      }
      assert bytes[..pos] == bytes;
    }
  }

  /** An error found in the bytes so far is the error of any stream that starts with them. */
  lemma ErrorStays(cfg: ReaderConfig, a: seq<byte>, b: seq<byte>)
    requires Drain(cfg, NOTHING, a).error.Some?
    ensures Drain(cfg, NOTHING, a + b).events == Drain(cfg, NOTHING, a).events
    ensures Drain(cfg, NOTHING, a + b).error == Drain(cfg, NOTHING, a).error
  {
    DrainSplit(cfg, NOTHING, a, b);
  }

  lemma CutAt(bytes: seq<byte>, pos: nat, n: nat)
    requires pos + n <= |bytes|
    ensures bytes[..pos + n] == bytes[..pos] + bytes[pos..pos + n]
    ensures bytes == bytes[..pos + n] + bytes[pos + n..]
  {
  }

  /** A reader is refused exactly when its buffer could not hold a frame of the largest size. */
  method NewReader(config: ReaderConfig) returns (r: Result<WsReader, WsError>)
    ensures r.Err? <==> config.maxFrame + MAX_SERVER_HEADER > config.buffer
    ensures r.Err? ==> r.error == BufferTooSmall
    ensures r.Ok? ==> fresh(r.value) && fresh(r.value.buf) && r.value.Valid() && r.value.config == config
                      && r.value.Pending() == [] && r.value.Assembling() == NOTHING
  {
    if config.maxFrame + MAX_SERVER_HEADER > config.buffer {
      return Err(BufferTooSmall);
    }
    var reader := new WsReader(config);
    return Ok(reader);
  }
}
