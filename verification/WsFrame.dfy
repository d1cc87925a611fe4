/** WebSocket frame headers (crates/bowst-venue/src/ws/frame.rs; section 5.2 of RFC 6455). */
module WsFrames {
  import opened Common
  import opened ByteCodec

  datatype Opcode = Continuation | Text | Binary | Close | Ping | Pong

  datatype WsError =
    | ReservedBits
    | UnknownOpcode(bits: nat)
    | MaskedServerFrame
    | InvalidLength
    | InvalidControlFrame
    | FrameTooLarge(len: nat, limit: nat)
    | UnexpectedFragment
    | MalformedClose
    | MessageTooLarge(limit: nat)
    | BufferTooSmall

  datatype FrameHeader = FrameHeader(fin: bool, opcode: Opcode, headerLen: nat, payloadLen: nat)

  const MAX_CONTROL_PAYLOAD: nat := 125
  const LEN_16: nat := 126
  const LEN_64: nat := 127

  function FromBits(bits: nat): Result<Opcode, WsError> {
    match bits
    case 0 => Ok(Continuation)
    case 1 => Ok(Text)
    case 2 => Ok(Binary)
    case 8 => Ok(Close)
    case 9 => Ok(Ping)
    case 10 => Ok(Pong)
    case _ => Err(UnknownOpcode(bits))
  }

  function Bits(op: Opcode): (b: byte)
    ensures b < 16 && FromBits(b) == Ok(op)
  {
    match op
    case Continuation => 0
    case Text => 1
    case Binary => 2
    case Close => 8
    case Ping => 9
    case Pong => 10
  }

  predicate IsControl(op: Opcode) {
    op.Close? || op.Ping? || op.Pong?
  }

  /** The payload length a header declares and the length of the header, once enough bytes are there. */
  function DeclaredLength(buf: seq<byte>): Result<Option<(nat, nat)>, WsError>
    requires |buf| >= 2
  {
    var short := buf[1] % 128;
    if short == LEN_16 then
      if |buf| < 4 then Ok(None)
      else if FromBE(buf[2..4]) < LEN_16 then Err(InvalidLength)
      else Ok(Some((FromBE(buf[2..4]), 4)))
    else if short == LEN_64 then
      if |buf| < 10 then Ok(None)
      else if FromBE(buf[2..10]) <= 0xFFFF || FromBE(buf[2..10]) >= 0x8000_0000_0000_0000 then Err(InvalidLength)
      else Ok(Some((FromBE(buf[2..10]), 10)))
    else Ok(Some((short, 2)))
  }

  /** `parse_server_header`: `Ok(None)` means more bytes are needed. */
  function ParseHeader(buf: seq<byte>, maxPayload: nat): (r: Result<Option<FrameHeader>, WsError>)
    ensures r.Ok? && r.value.Some? ==> 2 <= r.value.value.headerLen <= 10 && r.value.value.payloadLen <= maxPayload
    ensures r.Ok? && r.value.Some? ==> r.value.value.headerLen <= |buf|
    ensures r == Ok(None) ==> |buf| < 10
  {
    if |buf| < 2 then Ok(None)
    else if (buf[0] / 16) % 8 != 0 then Err(ReservedBits)
    else
      var fin := buf[0] >= 128;
      match FromBits(buf[0] % 16)
      case Err(e) => Err(e)
      case Ok(opcode) =>
        if buf[1] >= 128 then Err(MaskedServerFrame)
        else
          match DeclaredLength(buf)
          case Err(e) => Err(e)
          case Ok(None) => Ok(None)
          case Ok(Some((len, headerLen))) =>
            if IsControl(opcode) && (!fin || len > MAX_CONTROL_PAYLOAD) then Err(InvalidControlFrame)
            else if len > maxPayload then Err(FrameTooLarge(len, maxPayload))
            else Ok(Some(FrameHeader(fin, opcode, headerLen, len)))
  }

  /** A verdict on a header never changes when more bytes arrive. */
  lemma HeaderStable(buf: seq<byte>, more: seq<byte>, maxPayload: nat)
    requires ParseHeader(buf, maxPayload) != Ok(None)
    ensures ParseHeader(buf + more, maxPayload) == ParseHeader(buf, maxPayload)
  {
    var all := buf + more;
    assert all[..2] == buf[..2];
    if |buf| >= 4 { assert all[2..4] == buf[2..4]; }
    if |buf| >= 10 { assert all[2..10] == buf[2..10]; }
  }

  // ---------------------------------------------------------------- frames as a server sends them

  datatype Frame = Frame(fin: bool, opcode: Opcode, payload: seq<byte>)

  /** The length field of a frame: 7 bits, or a marker and 16 or 64 bits, whichever is the shortest. */
  function LengthField(n: nat): (r: seq<byte>)
    ensures |r| == 1 || |r| == 3 || |r| == 9
    ensures r[0] < 128
  {
    if n < LEN_16 then [n] else if n <= 0xFFFF then [LEN_16] + ToBE(n, 2) else [LEN_64] + ToBE(n, 8)
  }

  /** An unmasked frame as section 5.2 of RFC 6455 lays it out. */
  function EncodeServerFrame(f: Frame): seq<byte> {
    [(if f.fin then 128 else 0) + Bits(f.opcode)] + LengthField(|f.payload|) + f.payload
  }

  /** Frames the section allows: control frames are whole and short. */
  predicate LegalFrame(f: Frame) {
    |f.payload| < 0x8000_0000_0000_0000 && (IsControl(f.opcode) ==> f.fin && |f.payload| <= MAX_CONTROL_PAYLOAD)
  }

  lemma DeclaresLength(first: byte, n: nat, rest: seq<byte>)
    requires n < 0x8000_0000_0000_0000
    ensures DeclaredLength([first] + LengthField(n) + rest) == Ok(Some((n, 1 + |LengthField(n)|)))
  {
    Widths();
    var buf := [first] + LengthField(n) + rest;
    assert buf[1] == LengthField(n)[0];
    if n >= LEN_16 {
      if n <= 0xFFFF {
        BERoundTrip(n, 2);
        assert buf[2..4] == ToBE(n, 2);
      } else {
        BERoundTrip(n, 8);
        assert buf[2..10] == ToBE(n, 8);
      }
    }
  }

  /** Every legal frame's header parses back, and the parser refuses its length only when it is over
      the reader's own limit. */
  lemma HeaderRoundTrip(f: Frame, rest: seq<byte>, maxPayload: nat)
    requires LegalFrame(f)
    ensures ParseHeader(EncodeServerFrame(f) + rest, maxPayload)
         == if |f.payload| > maxPayload then Err(FrameTooLarge(|f.payload|, maxPayload))
            else Ok(Some(FrameHeader(f.fin, f.opcode, 1 + |LengthField(|f.payload|)|, |f.payload|)))
  {
    var first := (if f.fin then 128 else 0) + Bits(f.opcode);
    assert EncodeServerFrame(f) + rest == [first] + LengthField(|f.payload|) + (f.payload + rest);
    DeclaresLength(first, |f.payload|, f.payload + rest);
  }

  /** The first two bytes of a header are those of an encoded one. */
  lemma FirstByte(b: byte)
    requires (b / 16) % 8 == 0 && FromBits(b % 16).Ok?
    ensures b == (if b >= 128 then 128 else 0) + Bits(FromBits(b % 16).value)
  {
  }

  /** A header that is accepted is the shortest encoding of a legal frame within the limit; whatever bits,
      opcodes, masks or lengths section 5.2 of RFC 6455 does not allow are refused. */
  lemma ParsesOnlyEncoded(buf: seq<byte>, maxPayload: nat)
    requires ParseHeader(buf, maxPayload).Ok? && ParseHeader(buf, maxPayload).value.Some?
    ensures var h := ParseHeader(buf, maxPayload).value.value;
            && h.headerLen <= |buf| && h.payloadLen <= maxPayload && h.payloadLen < 0x8000_0000_0000_0000
            && (IsControl(h.opcode) ==> h.fin && h.payloadLen <= MAX_CONTROL_PAYLOAD)
            && buf[..h.headerLen] == [(if h.fin then 128 else 0) + Bits(h.opcode)] + LengthField(h.payloadLen)
  {
    var h := ParseHeader(buf, maxPayload).value.value;
    FirstByte(buf[0]);
    LengthParses(buf);
    assert buf[..h.headerLen] == [buf[0]] + buf[1..h.headerLen];
  }

  lemma LengthParses(buf: seq<byte>)
    requires |buf| >= 2 && buf[1] < 128 && DeclaredLength(buf).Ok? && DeclaredLength(buf).value.Some?
    ensures var (len, headerLen) := DeclaredLength(buf).value.value;
            && 2 <= headerLen <= |buf| && len < 0x8000_0000_0000_0000 && buf[1..headerLen] == LengthField(len)
  {
    var (len, headerLen) := DeclaredLength(buf).value.value;
    if headerLen == 2 {
      assert buf[1..2] == [buf[1]];
    } else {
      BEInverse(buf[2..headerLen]);
      BEBound(buf[2..headerLen]);
      Widths();
      assert buf[1..headerLen] == [buf[1]] + buf[2..headerLen];
    }
  }

  /** What a header is refused for is true of it. */
  lemma RefusalIsTrue(buf: seq<byte>, maxPayload: nat)
    requires |buf| >= 2 && ParseHeader(buf, maxPayload).Err?
    ensures match ParseHeader(buf, maxPayload).error
            case ReservedBits => (buf[0] / 16) % 8 != 0
            case UnknownOpcode(bits) => bits == buf[0] % 16 && bits !in {0, 1, 2, 8, 9, 10}
            case MaskedServerFrame => buf[1] >= 128
            case InvalidLength => buf[1] == LEN_16 || buf[1] == LEN_64
            case InvalidControlFrame => (buf[0] / 8) % 2 == 1 && (buf[0] < 128 || buf[1] > MAX_CONTROL_PAYLOAD)
            case FrameTooLarge(len, limit) => limit == maxPayload < len
            case _ => false
  {
  }
}
