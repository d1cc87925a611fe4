/** The on-disk journal format (crates/bowst-journal/src/format.rs). CRC-32 is a parameter: nothing
    here depends on which checksum it is. */
module JournalFormat {
  import opened Common
  import opened ByteCodec

  const FILE_HEADER_LEN: nat := 32
  const RECORD_HEADER_LEN: nat := 32
  const CRC_AT: nat := 24
  const HEADER_CRC_AT: nat := 28
  const MAX_PAYLOAD: nat := 0x100_0000
  const VERSION: nat := 1
  const MAGIC: seq<byte> := [0x42, 0x4F, 0x57, 0x53, 0x54, 0x4A, 0x4E, 0x4C]
  const GAP: u16 := 0x0001

  type u16 = x: int | 0 <= x < 0x1_0000
  type u32 = x: int | 0 <= x < 0x1_0000_0000

  type Checksum = seq<byte> -> u32

  datatype RecordHeader = RecordHeader(kind: u16, source: u16, mono: u64, wall: u64)

  datatype JournalRecord = JournalRecord(header: RecordHeader, payload: seq<byte>)

  datatype FormatError = BadFileHeader | BadChecksum(offset: nat) | TooLarge(offset: nat, len: nat)
      | BadHeaderChecksum(offset: nat)

  datatype Decoded = Whole(header: RecordHeader, len: nat) | Incomplete

  /** The little-endian integer of `width` bytes at `at`, zero if it is not all there. */
  function IntAt(bytes: seq<byte>, at: nat, width: nat): nat {
    if at + width <= |bytes| then FromLE(bytes[at..at + width]) else 0
  }

  // ---------------------------------------------------------------- file headers

  function EncodeFileHeader(segment: u32, created: u64): (r: seq<byte>)
    ensures |r| == FILE_HEADER_LEN
  {
    MAGIC + ToLE(VERSION, 4) + ToLE(segment, 4) + ToLE(created, 8) + [0, 0, 0, 0, 0, 0, 0, 0]
  }

  function DecodeFileHeader(bytes: seq<byte>): Result<u32, FormatError> {
    if |bytes| < FILE_HEADER_LEN || bytes[..8] != MAGIC || IntAt(bytes, 8, 4) != VERSION then Err(BadFileHeader)
    else
      Widths();
      Ok(IntAt(bytes, 12, 4))
  }

  // ---------------------------------------------------------------- records

  function HeaderFields(h: RecordHeader, len: nat): (r: seq<byte>)
    ensures |r| == CRC_AT
  {
    ToLE(h.kind, 2) + ToLE(h.source, 2) + ToLE(len, 4) + ToLE(h.mono, 8) + ToLE(h.wall, 8)
  }

  /** A record as it lies in the ring: the header with both checksums still zero, then the payload. */
  function Unsealed(r: JournalRecord): (bytes: seq<byte>)
    ensures |bytes| == RECORD_HEADER_LEN + |r.payload|
  {
    HeaderFields(r.header, |r.payload|) + [0, 0, 0, 0] + [0, 0, 0, 0] + r.payload
  }

  function RecordChecksum(crc: Checksum, record: seq<byte>): u32 {
    crc((if |record| >= CRC_AT then record[..CRC_AT] else []) +
        (if |record| >= RECORD_HEADER_LEN then record[RECORD_HEADER_LEN..] else []))
  }

  function HeaderChecksum(crc: Checksum, bytes: seq<byte>, recordCrc: u32): u32 {
    crc((if |bytes| >= CRC_AT then bytes[..CRC_AT] else []) + ToLE(recordCrc, 4))
  }

  /** `seal`: the record with both checksums in place. */
  function Seal(crc: Checksum, record: seq<byte>): (r: seq<byte>)
    requires |record| >= RECORD_HEADER_LEN
    ensures |r| == |record|
  {
    var c := RecordChecksum(crc, record);
    record[..CRC_AT] + ToLE(c, 4) + ToLE(HeaderChecksum(crc, record, c), 4) + record[RECORD_HEADER_LEN..]
  }

  function Sealed(crc: Checksum, r: JournalRecord): (bytes: seq<byte>)
    ensures |bytes| == RECORD_HEADER_LEN + |r.payload|
  {
    Seal(crc, Unsealed(r))
  }

  function DecodeRecord(crc: Checksum, bytes: seq<byte>, offset: nat): Result<Decoded, FormatError> {
    if |bytes| < RECORD_HEADER_LEN then Ok(Incomplete)
    else
      Widths();
      if HeaderChecksum(crc, bytes, IntAt(bytes, CRC_AT, 4)) != IntAt(bytes, HEADER_CRC_AT, 4) then
        Err(BadHeaderChecksum(offset))
      else
        var len := IntAt(bytes, 4, 4);
        if len > MAX_PAYLOAD then Err(TooLarge(offset, len))
        else if RECORD_HEADER_LEN + len > |bytes| then Ok(Incomplete)
        else
          var record := bytes[..RECORD_HEADER_LEN + len];
          if RecordChecksum(crc, record) != IntAt(record, CRC_AT, 4) then Err(BadChecksum(offset))
          else
            Ok(Whole(RecordHeader(IntAt(record, 0, 2), IntAt(record, 2, 2), IntAt(record, 8, 8), IntAt(record, 16, 8)),
                     RECORD_HEADER_LEN + len))
  }

  // ---------------------------------------------------------------- round trips

  /** An integer encoded between other bytes reads back. */
  lemma ReadsBack(a: seq<byte>, n: nat, width: nat, b: seq<byte>)
    requires n < Pow256(width)
    ensures IntAt(a + ToLE(n, width) + b, |a|, width) == n
  {
    var all := a + ToLE(n, width) + b;
    assert all[|a|..|a| + width] == ToLE(n, width);
    LERoundTrip(n, width);
  }

  lemma FourFields(a: seq<byte>, v: seq<byte>, s: seq<byte>, c: seq<byte>, rest: seq<byte>)
    ensures a + v + s + c + rest == a + v + (s + c + rest) == (a + v) + s + (c + rest)
    ensures a + v + s + c + rest == (a + v + s) + c + rest && (a + v + s + c + rest)[..|a|] == a
  {
  }

  /** A file header decodes to its segment number, and says when the file was created. */
  lemma FileHeaderRoundTrip(segment: u32, created: u64, rest: seq<byte>)
    ensures DecodeFileHeader(EncodeFileHeader(segment, created) + rest) == Ok(segment)
    ensures IntAt(EncodeFileHeader(segment, created) + rest, 16, 8) == created
  {
    Widths();
    var v, s, c, z := ToLE(VERSION, 4), ToLE(segment, 4), ToLE(created, 8), [0, 0, 0, 0, 0, 0, 0, 0];
    FourFields(MAGIC, v, s, c, z + rest);
    Associates(MAGIC + v + s + c, z, rest);
    ReadsBack(MAGIC, VERSION, 4, s + c + (z + rest));
    ReadsBack(MAGIC + v, segment, 4, c + (z + rest));
    ReadsBack(MAGIC + v + s, created, 8, z + rest);
  }

  /** Five parts in a row, each seen as what comes before, the part, and what comes after. */
  lemma FiveFields(k: seq<byte>, s: seq<byte>, n: seq<byte>, m: seq<byte>, w: seq<byte>, rest: seq<byte>)
    ensures k + s + n + m + w + rest == [] + k + (s + n + m + w + rest) == k + s + (n + m + w + rest)
    ensures k + s + n + m + w + rest == (k + s) + n + (m + w + rest) == (k + s + n) + m + (w + rest)
  {
  }

  /** Whatever follows the 24 header bytes, their fields read back. */
  lemma FieldsReadBack(h: RecordHeader, len: nat, rest: seq<byte>)
    requires len < 0x1_0000_0000
    ensures var bytes := HeaderFields(h, len) + rest;
            && IntAt(bytes, 0, 2) == h.kind && IntAt(bytes, 2, 2) == h.source && IntAt(bytes, 4, 4) == len
            && IntAt(bytes, 8, 8) == h.mono && IntAt(bytes, 16, 8) == h.wall
  {
    Widths();
    var k, s, n, m, w := ToLE(h.kind, 2), ToLE(h.source, 2), ToLE(len, 4), ToLE(h.mono, 8), ToLE(h.wall, 8);
    FiveFields(k, s, n, m, w, rest);
    ReadsBack([], h.kind, 2, s + n + m + w + rest);
    ReadsBack(k, h.source, 2, n + m + w + rest);
    ReadsBack(k + s, len, 4, m + w + rest);
    ReadsBack(k + s + n, h.mono, 8, w + rest);
    ReadsBack(k + s + n + m, h.wall, 8, rest);
  }

  /** The shape of a sealed record: 24 header bytes, two checksums, the payload. */
  lemma SealedShape(crc: Checksum, r: JournalRecord)
    ensures var head := HeaderFields(r.header, |r.payload|);
            var c := crc(head + r.payload);
            Sealed(crc, r) == head + ToLE(c, 4) + ToLE(crc(head + ToLE(c, 4)), 4) + r.payload
  {
    var head := HeaderFields(r.header, |r.payload|);
    var u := Unsealed(r);
    assert u[..CRC_AT] == head && u[RECORD_HEADER_LEN..] == r.payload;
  }

  /** The 32 header bytes of a record on disk, with whatever stands in the two checksums. */
  function Parts(h: RecordHeader, len: nat, c: u32, d: u32): (r: seq<byte>)
    ensures |r| == RECORD_HEADER_LEN
  {
    HeaderFields(h, len) + ToLE(c, 4) + ToLE(d, 4)
  }

  lemma ThreeFields(head: seq<byte>, e: seq<byte>, f: seq<byte>, rest: seq<byte>)
    ensures head + e + f + rest == head + e + (f + rest) == (head + e) + f + rest == head + (e + f + rest)
    ensures (head + e + f + rest)[..|head|] == head && (head + e + f + rest)[|head + e + f|..] == rest
  {
  }

  lemma PartsReadBack(h: RecordHeader, len: u32, c: u32, d: u32, rest: seq<byte>)
    ensures var bytes := Parts(h, len, c, d) + rest;
            && IntAt(bytes, CRC_AT, 4) == c && IntAt(bytes, HEADER_CRC_AT, 4) == d && IntAt(bytes, 4, 4) == len
            && IntAt(bytes, 0, 2) == h.kind && IntAt(bytes, 2, 2) == h.source
            && IntAt(bytes, 8, 8) == h.mono && IntAt(bytes, 16, 8) == h.wall
            && bytes[..CRC_AT] == HeaderFields(h, len) && bytes[RECORD_HEADER_LEN..] == rest
  {
    Widths();
    var head, e, f := HeaderFields(h, len), ToLE(c, 4), ToLE(d, 4);
    ThreeFields(head, e, f, rest);
    ReadsBack(head, c, 4, f + rest);
    ReadsBack(head + e, d, 4, rest);
    FieldsReadBack(h, len, e + f + rest);
  }

  /** What the decoder must say of a header with declared length `len` and stored checksums `c` and `d`,
      followed by `rest`: a header whose checksum does not match what is stored is refused before its
      length is believed, an oversized length before the payload is looked at, and a whole record is
      given exactly when both stored checksums are those of the bytes. */
  lemma DecodesParts(crc: Checksum, h: RecordHeader, len: u32, c: u32, d: u32, rest: seq<byte>, offset: nat)
    ensures var head := HeaderFields(h, len);
            DecodeRecord(crc, Parts(h, len, c, d) + rest, offset) ==
            if d != crc(head + ToLE(c, 4)) then Err(BadHeaderChecksum(offset))
            else if len > MAX_PAYLOAD then Err(TooLarge(offset, len))
            else if |rest| < len then Ok(Incomplete)
            else if c != crc(head + rest[..len]) then Err(BadChecksum(offset))
            else Ok(Whole(h, RECORD_HEADER_LEN + len))
  {
    var bytes := Parts(h, len, c, d) + rest;
    PartsReadBack(h, len, c, d, rest);
    if len <= |rest| {
      assert bytes[..RECORD_HEADER_LEN + len] == Parts(h, len, c, d) + rest[..len];
      PartsReadBack(h, len, c, d, rest[..len]);
    }
  }

  lemma JoinAt<T>(s: seq<T>, i: nat, j: nat)
    requires i <= j <= |s|
    ensures s[..i] + s[i..j] == s[..j] && s[..i] + s[i..] == s
    ensures s[i..][..j - i] == s[i..j]
  {
  }

  /** The bytes at `at` are what their integer encodes to. */
  lemma CutAt(bytes: seq<byte>, at: nat, width: nat)
    requires at + width <= |bytes|
    ensures bytes[..at] + ToLE(IntAt(bytes, at, width), width) == bytes[..at + width]
    ensures IntAt(bytes, at, width) < Pow256(width)
  {
    var cut := bytes[at..at + width];
    var n := IntAt(bytes, at, width);
    assert n == FromLE(cut);
    LEInverse(cut, width);
    assert ToLE(n, width) == cut;
    JoinAt(bytes, at, at + width);
  }

  /** A file is opened exactly when it is long enough and begins with the magic bytes, the version and a
      segment number, which is then the answer. */
  lemma OpensIff(bytes: seq<byte>, segment: u32)
    ensures DecodeFileHeader(bytes) == Ok(segment) <==>
            |bytes| >= FILE_HEADER_LEN && bytes[..16] == MAGIC + ToLE(VERSION, 4) + ToLE(segment, 4)
    ensures DecodeFileHeader(bytes).Err? ==> DecodeFileHeader(bytes) == Err(BadFileHeader)
  {
    Widths();
    if |bytes| >= FILE_HEADER_LEN {
      CutAt(bytes, 8, 4);
      CutAt(bytes, 12, 4);
      if bytes[..16] == MAGIC + ToLE(VERSION, 4) + ToLE(segment, 4) {
        JoinAt(bytes, 16, 16);
        FourFields(MAGIC, ToLE(VERSION, 4), ToLE(segment, 4), [], bytes[16..]);
        ReadsBack(MAGIC, VERSION, 4, ToLE(segment, 4) + bytes[16..]);
        ReadsBack(MAGIC + ToLE(VERSION, 4), segment, 4, bytes[16..]);
      }
    }
  }

  /** Any 32 bytes are the header of some record with some checksums. */
  lemma AllAreParts(bytes: seq<byte>)
    requires |bytes| >= RECORD_HEADER_LEN
    ensures IntAt(bytes, 0, 2) < 0x1_0000 && IntAt(bytes, 2, 2) < 0x1_0000 && IntAt(bytes, 4, 4) < 0x1_0000_0000
    ensures IntAt(bytes, 8, 8) <= U64_MAX && IntAt(bytes, 16, 8) <= U64_MAX
    ensures IntAt(bytes, CRC_AT, 4) < 0x1_0000_0000 && IntAt(bytes, HEADER_CRC_AT, 4) < 0x1_0000_0000
    ensures var h := RecordHeader(IntAt(bytes, 0, 2), IntAt(bytes, 2, 2), IntAt(bytes, 8, 8), IntAt(bytes, 16, 8));
            bytes[..RECORD_HEADER_LEN]
                == Parts(h, IntAt(bytes, 4, 4), IntAt(bytes, CRC_AT, 4), IntAt(bytes, HEADER_CRC_AT, 4))
  {
    Widths();
    CutAt(bytes, 0, 2);
    CutAt(bytes, 2, 2);
    CutAt(bytes, 4, 4);
    CutAt(bytes, 8, 8);
    CutAt(bytes, 16, 8);
    CutAt(bytes, CRC_AT, 4);
    CutAt(bytes, HEADER_CRC_AT, 4);
  }

  /** A sealed record decodes to itself, whatever follows it. */
  lemma DecodesWhole(crc: Checksum, r: JournalRecord, rest: seq<byte>, offset: nat)
    requires |r.payload| <= MAX_PAYLOAD
    ensures DecodeRecord(crc, Sealed(crc, r) + rest, offset) == Ok(Whole(r.header, |Sealed(crc, r)|))
  {
    SealedShape(crc, r);
    var head := HeaderFields(r.header, |r.payload|);
    var c := crc(head + r.payload);
    var d := crc(head + ToLE(c, 4));
    assert Sealed(crc, r) + rest == Parts(r.header, |r.payload|, c, d) + (r.payload + rest);
    assert (r.payload + rest)[..|r.payload|] == r.payload;
    DecodesParts(crc, r.header, |r.payload|, c, d, r.payload + rest, offset);
  }

  lemma GivenIsSealed(crc: Checksum, bytes: seq<byte>, h: RecordHeader, n: nat, offset: nat)
    requires DecodeRecord(crc, bytes, offset) == Ok(Whole(h, n))
    ensures RECORD_HEADER_LEN <= n <= |bytes| && n - RECORD_HEADER_LEN <= MAX_PAYLOAD
    ensures bytes[..n] == Sealed(crc, JournalRecord(h, bytes[RECORD_HEADER_LEN..n]))
  {
    AllAreParts(bytes);
    var len, c, d := IntAt(bytes, 4, 4), IntAt(bytes, CRC_AT, 4), IntAt(bytes, HEADER_CRC_AT, 4);
    var h' := RecordHeader(IntAt(bytes, 0, 2), IntAt(bytes, 2, 2), IntAt(bytes, 8, 8), IntAt(bytes, 16, 8));
    var rest := bytes[RECORD_HEADER_LEN..];
    JoinAt(bytes, RECORD_HEADER_LEN, |bytes|);
    DecodesParts(crc, h', len, c, d, rest, offset);
    assert h == h' && n == RECORD_HEADER_LEN + len && len <= |rest|;
    JoinAt(bytes, RECORD_HEADER_LEN, n);
    SealedShape(crc, JournalRecord(h, bytes[RECORD_HEADER_LEN..n]));
  }

  /** So whatever is on disk, a record is given exactly when the bytes begin with that record, sealed: no
      record is made up, none is given with a checksum that is not its own, and no sealed record of
      legal size is missed. */
  lemma GivesOnlySealed(crc: Checksum, bytes: seq<byte>, h: RecordHeader, n: nat, offset: nat)
    ensures DecodeRecord(crc, bytes, offset) == Ok(Whole(h, n)) <==>
            && RECORD_HEADER_LEN <= n <= |bytes| && n - RECORD_HEADER_LEN <= MAX_PAYLOAD
            && bytes[..n] == Sealed(crc, JournalRecord(h, bytes[RECORD_HEADER_LEN..n]))
  {
    if DecodeRecord(crc, bytes, offset) == Ok(Whole(h, n)) { GivenIsSealed(crc, bytes, h, n, offset); }
    if && RECORD_HEADER_LEN <= n <= |bytes| && n - RECORD_HEADER_LEN <= MAX_PAYLOAD
       && bytes[..n] == Sealed(crc, JournalRecord(h, bytes[RECORD_HEADER_LEN..n])) {
      JoinAt(bytes, n, n);
      DecodesWhole(crc, JournalRecord(h, bytes[RECORD_HEADER_LEN..n]), bytes[n..], offset);
    }
  }

  /** A sealed record cut anywhere before its end is incomplete, never corrupt. */
  lemma DecodesCut(crc: Checksum, r: JournalRecord, n: nat, offset: nat)
    requires |r.payload| <= MAX_PAYLOAD && n < |Sealed(crc, r)|
    ensures DecodeRecord(crc, Sealed(crc, r)[..n], offset) == Ok(Incomplete)
  {
    if n >= RECORD_HEADER_LEN {
      SealedShape(crc, r);
      var head := HeaderFields(r.header, |r.payload|);
      var c := crc(head + r.payload);
      var d := crc(head + ToLE(c, 4));
      var rest := r.payload[..n - RECORD_HEADER_LEN];
      assert Sealed(crc, r)[..n] == Parts(r.header, |r.payload|, c, d) + rest;
      DecodesParts(crc, r.header, |r.payload|, c, d, rest, offset);
    }
  }

  /** A declared length over the limit is refused before the payload is looked at, even when both
      checksums are right. */
  lemma RefusesOversized(crc: Checksum, h: RecordHeader, len: u32, c: u32, payload: seq<byte>, offset: nat)
    requires len > MAX_PAYLOAD
    ensures var head := HeaderFields(h, len);
            DecodeRecord(crc, head + ToLE(c, 4) + ToLE(crc(head + ToLE(c, 4)), 4) + payload, offset)
                == Err(TooLarge(offset, len))
  {
    var d := crc(HeaderFields(h, len) + ToLE(c, 4));
    DecodesParts(crc, h, len, c, d, payload, offset);
  }
}
