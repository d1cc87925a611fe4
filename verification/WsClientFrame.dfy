/** Encoding masked client frames in place (crates/bowst-venue/src/ws/frame.rs; sections 5.2 and 5.3
    of RFC 6455), and reading them back as the far end would. */
module WsClientFrames {
  import opened Common
  import opened ByteCodec
  import opened Remainders
  import opened WsFrames

  const MAX_CLIENT_HEADER: nat := 14

  /** Exclusive or of the lowest `width` bits. */
  function XorBits(a: nat, b: nat, width: nat): nat {
    if width == 0 then 0 else 2 * XorBits(a / 2, b / 2, width - 1) + if a % 2 == b % 2 then 0 else 1
  }

  lemma {:induction false} XorBitsFit(a: nat, b: nat, width: nat)
    ensures XorBits(a, b, width) < Pow2(width)
  {
    if width > 0 {
      XorBitsFit(a / 2, b / 2, width - 1);
    }
  }

  lemma XorLowestBit(a: nat, key: nat, width: nat)
    requires width > 0
    ensures XorBits(a, key, width) / 2 == XorBits(a / 2, key / 2, width - 1)
    ensures XorBits(a, key, width) % 2 == if a % 2 == key % 2 then 0 else 1
  {
    var rest := XorBits(a / 2, key / 2, width - 1);
    assert XorBits(a, key, width) == 2 * rest + if a % 2 == key % 2 then 0 else 1;
  }

  lemma {:induction false} XorBitsTwice(a: nat, key: nat, width: nat)
    requires a < Pow2(width)
    ensures XorBits(XorBits(a, key, width), key, width) == a
  {
    if width > 0 {
      XorBitsTwice(a / 2, key / 2, width - 1);
      XorLowestBit(a, key, width);
      XorLowestBit(XorBits(a, key, width), key, width);
    }
  }

  lemma ByteWidth()
    ensures Pow2(8) == 256
  {
    assert Pow2(4) == 16;
  }

  function Xor(a: byte, b: byte): byte {
    ByteWidth();
    XorBitsFit(a, b, 8);
    XorBits(a, b, 8)
  }

  lemma XorTwice(a: byte, key: byte)
    ensures Xor(Xor(a, key), key) == a
  {
    ByteWidth();
    XorBitsTwice(a, key, 8);
  }

  /** The masking of section 5.3: every byte is combined with the mask byte at its position modulo 4. */
  function Masked(payload: seq<byte>, mask: seq<byte>): (r: seq<byte>)
    requires |mask| == 4
    ensures |r| == |payload|
  {
    if payload == [] then []
    else
      var n := |payload| - 1;
      Masked(payload[..n], mask) + [Xor(payload[n], mask[n % 4])]
  }

  lemma {:induction false} MaskedTwice(payload: seq<byte>, mask: seq<byte>)
    requires |mask| == 4
    ensures Masked(Masked(payload, mask), mask) == payload
  {
    if payload != [] {
      var n := |payload| - 1;
      MaskedTwice(payload[..n], mask);
      XorTwice(payload[n], mask[n % 4]);
      assert Masked(payload, mask)[..n] == Masked(payload[..n], mask);
      assert payload == payload[..n] + [payload[n]];
    }
  }

  function MaskBit(field: seq<byte>): seq<byte>
    requires |field| > 0 && field[0] < 128
  {
    field[0 := field[0] + 128]
  }

  function ClientHeader(op: Opcode, len: nat, mask: seq<byte>): seq<byte> {
    [128 + Bits(op)] + MaskBit(LengthField(len)) + mask
  }

  function ClientFrame(op: Opcode, payload: seq<byte>, mask: seq<byte>): seq<byte>
    requires |mask| == 4
  {
    ClientHeader(op, |payload|, mask) + Masked(payload, mask)
  }

  /** The mask, the masked payload and the bytes after it, once the header is read. */
  function ReadBody(bytes: seq<byte>, h: FrameHeader): Option<(Frame, seq<byte>)> {
    var body := h.headerLen + 4;
    if |bytes| < body + h.payloadLen then None
    else
      var payload := Masked(bytes[body..body + h.payloadLen], bytes[h.headerLen..body]);
      Some((Frame(h.fin, h.opcode, payload), bytes[body + h.payloadLen..]))
  }

  /** What a server makes of the front of a client's stream: the frame, and the bytes after it. */
  function ReadClientFrame(bytes: seq<byte>, limit: nat): Option<(Frame, seq<byte>)> {
    if |bytes| < 2 || bytes[1] < 128 then None
    else
      match ParseHeader(bytes[1 := bytes[1] - 128], limit)
      case Ok(Some(h)) => ReadBody(bytes, h)
      case _ => None
  }

  lemma ClearedMaskBit(op: Opcode, len: nat, tail: seq<byte>)
    ensures var bytes := [128 + Bits(op)] + MaskBit(LengthField(len)) + tail;
            |bytes| >= 2 && bytes[1] >= 128 && bytes[1 := bytes[1] - 128] == [128 + Bits(op)] + LengthField(len) + tail
  {
    var bytes := [128 + Bits(op)] + MaskBit(LengthField(len)) + tail;
    assert bytes[1] == MaskBit(LengthField(len))[0];
  }

  lemma HeaderOf(op: Opcode, len: nat, tail: seq<byte>, limit: nat)
    requires len < 0x8000_0000_0000_0000 && len <= limit && (IsControl(op) ==> len <= MAX_CONTROL_PAYLOAD)
    ensures ParseHeader([128 + Bits(op)] + LengthField(len) + tail, limit)
            == Ok(Some(FrameHeader(true, op, 1 + |LengthField(len)|, len)))
  {
    DeclaresLength(128 + Bits(op), len, tail);
  }

  lemma TailParts(bytes: seq<byte>, n: nat, mask: seq<byte>, body: seq<byte>, rest: seq<byte>)
    requires |mask| == 4 && n <= |bytes| && bytes[n..] == mask + body + rest
    ensures |bytes| == n + 4 + |body| + |rest|
    ensures bytes[n..n + 4] == mask && bytes[n + 4..n + 4 + |body|] == body && bytes[n + 4 + |body|..] == rest
  {
    var tail := bytes[n..];
    assert bytes[n..n + 4] == tail[..4];
    assert bytes[n + 4..n + 4 + |body|] == tail[4..4 + |body|];
    assert bytes[n + 4 + |body|..] == tail[4 + |body|..];
  }

  /** The body of a frame whose header has been read. */
  lemma ReadsBody(bytes: seq<byte>, h: FrameHeader, mask: seq<byte>, payload: seq<byte>, rest: seq<byte>)
    requires |mask| == 4 && h.payloadLen == |payload| && h.headerLen <= |bytes|
    requires bytes[h.headerLen..] == mask + Masked(payload, mask) + rest
    ensures ReadBody(bytes, h) == Some((Frame(h.fin, h.opcode, payload), rest))
  {
    ReadsParts(bytes, h, mask, Masked(payload, mask), rest);
    MaskedTwice(payload, mask);
  }

  lemma ReadsParts(bytes: seq<byte>, h: FrameHeader, mask: seq<byte>, body: seq<byte>, rest: seq<byte>)
    requires |mask| == 4 && h.payloadLen == |body| && h.headerLen <= |bytes|
    requires bytes[h.headerLen..] == mask + body + rest
    ensures ReadBody(bytes, h) == Some((Frame(h.fin, h.opcode, Masked(body, mask)), rest))
  {
    var at := h.headerLen + 4;
    TailParts(bytes, h.headerLen, mask, body, rest);
    assert bytes[h.headerLen..at] == mask && bytes[at..at + h.payloadLen] == body && bytes[at + h.payloadLen..] == rest;
  }

  lemma Reassociate(header: seq<byte>, mask: seq<byte>, body: seq<byte>, rest: seq<byte>)
    ensures header + mask + body + rest == header + (mask + body + rest)
  {
  }

  lemma SkipsHeader(first: byte, field: seq<byte>, tail: seq<byte>)
    ensures ([first] + field + tail)[1 + |field|..] == tail
  {
  }

  /** The header of a client's frame, read with its mask bit cleared. */
  lemma ReadsHeader(op: Opcode, len: nat, tail: seq<byte>, limit: nat)
    requires len < 0x8000_0000_0000_0000 && len <= limit && (IsControl(op) ==> len <= MAX_CONTROL_PAYLOAD)
    ensures var bytes := [128 + Bits(op)] + MaskBit(LengthField(len)) + tail;
            var h := FrameHeader(true, op, 1 + |LengthField(len)|, len);
            && ReadClientFrame(bytes, limit) == ReadBody(bytes, h)
            && h.headerLen <= |bytes| && bytes[h.headerLen..] == tail
  {
    ClearedMaskBit(op, len, tail);
    HeaderOf(op, len, tail, limit);
    SkipsHeader(128 + Bits(op), MaskBit(LengthField(len)), tail);
  }

  /** Whatever the mask, the far end reads back exactly the frame that was sent. */
  lemma ClientRoundTrip(op: Opcode, payload: seq<byte>, mask: seq<byte>, rest: seq<byte>, limit: nat)
    requires |mask| == 4 && LegalFrame(Frame(true, op, payload)) && |payload| <= limit
    ensures ReadClientFrame(ClientFrame(op, payload, mask) + rest, limit) == Some((Frame(true, op, payload), rest))
  {
    var start := [128 + Bits(op)] + MaskBit(LengthField(|payload|));
    var tail := mask + Masked(payload, mask) + rest;
    Reassociate(start, mask, Masked(payload, mask), rest);
    assert ClientFrame(op, payload, mask) + rest == start + tail;
    ReadsHeader(op, |payload|, tail, limit);
    ReadsBody(start + tail, FrameHeader(true, op, |start|, |payload|), mask, payload, rest);
  }

  predicate OverlongControl(op: Opcode, len: nat) {
    IsControl(op) && len > MAX_CONTROL_PAYLOAD
  }

  lemma OverlongRefused(op: Opcode, len: nat, tail: seq<byte>, limit: nat)
    requires len < 0x8000_0000_0000_0000 && OverlongControl(op, len)
    ensures ParseHeader([128 + Bits(op)] + LengthField(len) + tail, limit) == Err(InvalidControlFrame)
  {
    DeclaresLength(128 + Bits(op), len, tail);
  }

  /** The control frames the encoder refuses are exactly those that no server would read. */
  lemma RefusesUnreadable(op: Opcode, payload: seq<byte>, mask: seq<byte>, rest: seq<byte>, limit: nat)
    requires |mask| == 4 && |payload| < 0x8000_0000_0000_0000 && |payload| <= limit
    ensures ReadClientFrame(ClientFrame(op, payload, mask) + rest, limit).None? <==> OverlongControl(op, |payload|)
  {
    if OverlongControl(op, |payload|) {
      var tail := mask + Masked(payload, mask) + rest;
      Reassociate([128 + Bits(op)] + MaskBit(LengthField(|payload|)), mask, Masked(payload, mask), rest);
      ClearedMaskBit(op, |payload|, tail);
      OverlongRefused(op, |payload|, tail, limit);
    } else {
      ClientRoundTrip(op, payload, mask, rest, limit);
    }
  }

  // ---------------------------------------------------------------- writing into a buffer

  /** The bounds-checked sequential writer: `bytes` go in at `pos`, if there is room. */
  method Put(out: array<byte>, pos: nat, bytes: seq<byte>) returns (r: Result<nat, WsError>)
    requires pos <= out.Length
    modifies out
    ensures r == if pos + |bytes| <= out.Length then Ok(pos + |bytes|) else Err(BufferTooSmall)
    ensures r.Ok? ==> out[..pos + |bytes|] == old(out[..pos]) + bytes && TailKept(out, pos + |bytes|)
  {
    if pos + |bytes| > out.Length {
      return Err(BufferTooSmall);
    }
    var i := 0;
    while i < |bytes|
      invariant 0 <= i <= |bytes|
      invariant out[..pos + i] == old(out[..pos]) + bytes[..i]
      invariant TailKept(out, pos + i)
    {
      out[pos + i] := bytes[i];
      i := i + 1;
    }
    assert bytes[..|bytes|] == bytes;
    return Ok(pos + |bytes|);
  }

  lemma MaskedStep(payload: seq<byte>, mask: seq<byte>, i: nat)
    requires |mask| == 4 && i < |payload|
    ensures Masked(payload[..i + 1], mask) == Masked(payload[..i], mask) + [Xor(payload[i], mask[i % 4])]
  {
    assert payload[..i + 1][..i] == payload[..i];
  }

  /** The masked payload goes straight into the reserved room, one byte at a time. */
  method PutMasked(out: array<byte>, pos: nat, payload: seq<byte>, mask: seq<byte>) returns (r: Result<nat, WsError>)
    requires pos <= out.Length && |mask| == 4
    modifies out
    ensures r == if pos + |payload| <= out.Length then Ok(pos + |payload|) else Err(BufferTooSmall)
    ensures r.Ok? ==> out[..pos + |payload|] == old(out[..pos]) + Masked(payload, mask)
    ensures r.Ok? ==> TailKept(out, pos + |payload|)
  {
    if pos + |payload| > out.Length {
      return Err(BufferTooSmall);
    }
    var i := 0;
    while i < |payload|
      invariant 0 <= i <= |payload|
      invariant out[..pos + i] == old(out[..pos]) + Masked(payload[..i], mask)
      invariant TailKept(out, pos + i)
    {
      MaskedStep(payload, mask, i);
      out[pos + i] := Xor(payload[i], mask[i % 4]);
      i := i + 1;
    }
    assert payload[..|payload|] == payload;
    return Ok(pos + |payload|);
  }

  /** Writes the header: its first byte, the masked length field and the mask. */
  method PutHeader(op: Opcode, len: nat, mask: seq<byte>, out: array<byte>) returns (r: Result<nat, WsError>)
    modifies out
    ensures var header := ClientHeader(op, len, mask);
            && r == (if |header| <= out.Length then Ok(|header|) else Err(BufferTooSmall))
            && (r.Ok? ==> out[..|header|] == header && TailKept(out, |header|))
  {
    r := Put(out, 0, [128 + Bits(op)]);
    if r.Err? { return; }
    r := Put(out, r.value, MaskBit(LengthField(len)));
    if r.Err? { return; }
    r := Put(out, r.value, mask);
  }

  /** `encode_client_frame`: writes one whole frame and leaves the rest of the buffer alone, or says
      why it cannot. A buffer with room for the payload and `MAX_CLIENT_HEADER` more bytes is enough. */
  method EncodeClientFrame(op: Opcode, payload: seq<byte>, mask: seq<byte>, out: array<byte>)
                           returns (r: Result<nat, WsError>)
    requires |mask| == 4 && |payload| <= U64_MAX
    modifies out
    ensures var frame := ClientFrame(op, payload, mask);
            && |frame| <= |payload| + MAX_CLIENT_HEADER
            && r == (if OverlongControl(op, |payload|) then Err(InvalidControlFrame)
                     else if |frame| <= out.Length then Ok(|frame|)
                     else Err(BufferTooSmall))
            && (r.Ok? ==> out[..|frame|] == frame && TailKept(out, |frame|))
  {
    if OverlongControl(op, |payload|) {
      return Err(InvalidControlFrame);
    }
    r := PutHeader(op, |payload|, mask, out);
    if r.Ok? {
      r := PutMasked(out, r.value, payload, mask);
    }
  }
}
