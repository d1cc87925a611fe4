/** What a reader makes of segment files whatever is in them (crates/bowst-journal/src/reader.rs): every
    file is read up to the first byte that does not begin a sealed record, and how reading ends says
    what was there. */
module JournalDamage {
  import opened Common
  import opened ByteCodec
  import opened JournalFormat
  import opened JournalFiles

  /** The bytes begin with a sealed record of legal size. */
  ghost predicate StartsWhole(crc: Checksum, bytes: seq<byte>) {
    exists r :: Legal(r) && Sealed(crc, r) <= bytes
  }

  /** The file is a sound header, these records, and a rest that begins no record. */
  ghost predicate Holds(crc: Checksum, file: seq<byte>, rs: seq<JournalRecord>, rest: seq<byte>) {
    && FILE_HEADER_LEN <= |file| && DecodeFileHeader(file).Ok? && AllLegal(rs)
    && file[FILE_HEADER_LEN..] == SealAll(crc, rs) + rest && !StartsWhole(crc, rest)
  }

  /** The first `|read|` files hold those records and nothing else. */
  ghost predicate HoldAll(crc: Checksum, files: seq<seq<byte>>, read: seq<seq<JournalRecord>>) {
    |read| <= |files| && forall k :: 0 <= k < |read| ==> Holds(crc, files[k], read[k], [])
  }

  function Flat(read: seq<seq<JournalRecord>>): seq<JournalRecord> {
    if read == [] then [] else Flat(read[..|read| - 1]) + read[|read| - 1]
  }

  lemma OneMore(crc: Checksum, bytes: seq<byte>, r: JournalRecord, more: seq<JournalRecord>, rest: seq<byte>)
    requires Sealed(crc, r) <= bytes && bytes[|Sealed(crc, r)|..] == SealAll(crc, more) + rest
    ensures bytes == SealAll(crc, [r] + more) + rest
  {
    assert ([r] + more)[1..] == more;
    JoinAt(bytes, |Sealed(crc, r)|, |bytes|);
    Associates(Sealed(crc, r), SealAll(crc, more), rest);
  }

  /** Every byte string is sealed records, as many as there are, and a rest. */
  lemma {:induction false} Parses(crc: Checksum, bytes: seq<byte>)
    returns (rs: seq<JournalRecord>, rest: seq<byte>)
    ensures AllLegal(rs) && bytes == SealAll(crc, rs) + rest && !StartsWhole(crc, rest)
    decreases |bytes|
  {
    if StartsWhole(crc, bytes) {
      var r :| Legal(r) && Sealed(crc, r) <= bytes;
      var more, tail := Parses(crc, bytes[|Sealed(crc, r)|..]);
      rs, rest := [r] + more, tail;
      OneMore(crc, bytes, r, more, tail);
    } else {
      rs, rest := [], bytes;
      assert bytes == [] + bytes;
    }
  }

  /** Where no record begins, none is decoded. */
  lemma NoneDecoded(crc: Checksum, bytes: seq<byte>, offset: nat)
    requires !StartsWhole(crc, bytes)
    ensures DecodeRecord(crc, bytes, offset).Err? || DecodeRecord(crc, bytes, offset) == Ok(Incomplete)
  {
    var d := DecodeRecord(crc, bytes, offset);
    if d.Ok? && d.value.Whole? {
      GivesOnlySealed(crc, bytes, d.value.header, d.value.len, offset);
      var r := JournalRecord(d.value.header, bytes[RECORD_HEADER_LEN..d.value.len]);
      assert Legal(r) && Sealed(crc, r) <= bytes;
    }
  }

  /** How reading ends at bytes of file `k`, `offset` bytes in, that begin no record. */
  function EndAt(crc: Checksum, files: nat, k: nat, rest: seq<byte>, offset: nat): Result<bool, ReadError> {
    match DecodeRecord(crc, rest, offset)
    case Err(e) => Err(Corrupt(k, e))
    case Ok(_) => if k == files - 1 then Ok(true) else Err(Truncated(k, offset))
  }

  lemma EndsAt(crc: Checksum, files: seq<seq<byte>>, c: Cursor, k: nat, rest: seq<byte>)
    requires Inside(crc, files, c, k, [], rest) && rest != [] && !StartsWhole(crc, rest)
    ensures ReadAll(crc, files, c) == Reading([], EndAt(crc, |files|, k, rest, c.pos))
  {
    assert c.data[c.pos..] == rest;
    NoneDecoded(crc, rest, c.pos);
    FoundAt(crc, files, c, c);
  }

  /** The records of one file, and then what follows them. */
  lemma ReadsRecords(crc: Checksum, files: seq<seq<byte>>, c: Cursor, k: nat, rs: seq<JournalRecord>, rest: seq<byte>)
    requires k < |files| && AtSegment(files, c, k) && Holds(crc, files[k], rs, rest)
    ensures |rest| <= |files[k]| && Inside(crc, files, JournalFiles.After(files, k, rest), k, [], rest)
    ensures ReadAll(crc, files, c) == Prefixed(rs, ReadAll(crc, files, JournalFiles.After(files, k, rest)))
  {
    OpensFile(crc, files, c, k);
    ReadsInside(crc, files, Cursor(k + 1, files[k], FILE_HEADER_LEN, false), k, rs, rest);
  }

  /** One file: its records, and then the next file or the end. */
  lemma ReadsFile(crc: Checksum, files: seq<seq<byte>>, c: Cursor, k: nat, rs: seq<JournalRecord>, rest: seq<byte>)
    requires k < |files| && AtSegment(files, c, k) && Holds(crc, files[k], rs, rest)
    ensures |rest| <= |files[k]|
    ensures rest == [] ==>
              && AtSegment(files, JournalFiles.After(files, k, []), k + 1)
              && ReadAll(crc, files, c) == Prefixed(rs, ReadAll(crc, files, JournalFiles.After(files, k, [])))
    ensures rest != [] ==>
              ReadAll(crc, files, c) == Prefixed(rs, Reading([], EndAt(crc, |files|, k, rest, |files[k]| - |rest|)))
  {
    ReadsRecords(crc, files, c, k, rs, rest);
    if rest != [] { EndsAt(crc, files, JournalFiles.After(files, k, rest), k, rest); }
  }

  lemma BadHeader(crc: Checksum, files: seq<seq<byte>>, c: Cursor, k: nat)
    requires k < |files| && AtSegment(files, c, k) && DecodeFileHeader(files[k]).Err?
    ensures ReadAll(crc, files, c) == Reading([], Err(Corrupt(k, BadFileHeader)))
  {
    assert LoadNext(files, c).1 == Err(Corrupt(k, BadFileHeader));
  }

  lemma AtTheEnd(crc: Checksum, files: seq<seq<byte>>, c: Cursor)
    requires AtSegment(files, c, |files|)
    ensures ReadAll(crc, files, c) == Reading([], Ok(false))
  {
  }

  /** How the reading of `files` goes on after the first `|read|` of them. */
  ghost predicate EndsAfter(crc: Checksum, files: seq<seq<byte>>, read: seq<seq<JournalRecord>>, more: Reading) {
    var k := |read|;
    if k >= |files| then more == Reading([], Ok(false))
    else if DecodeFileHeader(files[k]).Err? then more == Reading([], Err(Corrupt(k, BadFileHeader)))
    else
      exists rs, rest ::
        && Holds(crc, files[k], rs, rest) && 0 < |rest| <= |files[k]|
        && more == Reading(rs, EndAt(crc, |files|, k, rest, |files[k]| - |rest|))
  }

  lemma EndsHere(crc: Checksum, files: seq<seq<byte>>, read: seq<seq<JournalRecord>>, more: Reading,
                 rs: seq<JournalRecord>, rest: seq<byte>)
    requires |read| < |files| && Holds(crc, files[|read|], rs, rest) && 0 < |rest| <= |files[|read|]|
    requires more == Reading(rs, EndAt(crc, |files|, |read|, rest, |files[|read|]| - |rest|))
    ensures EndsAfter(crc, files, read, more)
  {
  }

  lemma {:induction false} ReadsFrom(crc: Checksum, files: seq<seq<byte>>, c: Cursor, before: seq<seq<JournalRecord>>)
    returns (read: seq<seq<JournalRecord>>, more: Reading)
    requires HoldAll(crc, files, before) && AtSegment(files, c, |before|)
    requires ReadAll(crc, files, START) == Prefixed(Flat(before), ReadAll(crc, files, c))
    ensures HoldAll(crc, files, read) && EndsAfter(crc, files, read, more)
    ensures ReadAll(crc, files, START) == Prefixed(Flat(read), more)
    decreases |files| - |before|
  {
    var k := |before|;
    read, more := before, ReadAll(crc, files, c);
    if k == |files| {
      AtTheEnd(crc, files, c);
    } else if DecodeFileHeader(files[k]).Err? {
      BadHeader(crc, files, c, k);
    } else {
      var rs, rest := Parses(crc, files[k][FILE_HEADER_LEN..]);
      ReadsFile(crc, files, c, k, rs, rest);
      if rest == [] {
        var c' := JournalFiles.After(files, k, []);
        assert (before + [rs])[..k] == before;
        PrefixedTwice(Flat(before), rs, ReadAll(crc, files, c'));
        read, more := ReadsFrom(crc, files, c', before + [rs]);
      } else {
        assert rs + [] == rs;
        EndsHere(crc, files, before, more, rs, rest);
      }
    }
  }

  /** Whatever the files are: a reader gets the records of the files up to the first that is not whole, and
      of that one the records up to the first byte that begins none. It ends there: with an error for a bad
      file header, a bad checksum or an oversized length; with an error for a record that is not all there,
      unless that is in the last file, where it is a torn tail; and with no error when all was read. */
  lemma ReadsAnything(crc: Checksum, files: seq<seq<byte>>)
    ensures exists read, more ::
              && HoldAll(crc, files, read) && EndsAfter(crc, files, read, more)
              && ReadAll(crc, files, START) == Prefixed(Flat(read), more)
  {
    PrefixedTwice([], [], ReadAll(crc, files, START));
    var read, more := ReadsFrom(crc, files, START, []);
  }
}
