/**
 * The IDX index table as `WPKFile._read_indices` reads it
 * (core/wpk/wpk_file.py): a u32 record count, then that many records of
 * three u32 fields, three u16 fields and the UTF-8 name bytes, all
 * integers little-endian.
 */
module IndexParser {
  import opened Wrappers
  import opened Bytes
  import opened Utf8
  import opened DataFlags
  import opened EntryTypes

  /**
   * The members of CompressionType and DecryptionType; the enumerations
   * live in core/npk/enums.py, which is not part of this model.
   */
  datatype TagSets = TagSets(compression: set<Tag>, encryption: set<Tag>)

  /** Why construction of a WPKFile raises while reading the index. */
  datatype ParseError =
    | Truncated(at: nat)              // a u32 or u16 read past the end of the file
    | UnknownCompression(tag: Tag)    // `CompressionType(v)` raises ValueError
    | UnknownEncryption(tag: Tag)     // `DecryptionType(v)` raises ValueError
    | BadFilename(at: nat)            // `.decode("utf-8")` raises

  /** Bytes before the name in a record. */
  const RecordHeaderSize: nat := 18

  /** A short read of a field, reported where the field starts. */
  function Truncation(r: Result<nat, nat>): (t: Result<nat, ParseError>)
    ensures t.Success? <==> r.Success?
    ensures t.Success? ==> t.value == r.value
  {
    match r
    case Success(v) => Success(v)
    case Failure(at) => Failure(Truncated(at))
  }

  /** A u16 field, as a tag. */
  function ReadTag(buf: Bytes, pos: nat): (r: Result<Tag, ParseError>)
    ensures r.Success? <==> pos + 2 <= |buf|
    ensures r.Success? ==> ReadU16(buf, pos) == Success(r.value as nat)
  {
    var v :- Truncation(ReadU16(buf, pos));
    Success(v as Tag)
  }

  /** The fixed part of a record: three u32 fields and three u16 fields. */
  datatype Header = Header(offset: nat, length: nat, original: nat, zip: Tag, enc: Tag, nameLength: nat)

  /**
   * The header at `pos`. Each tag is turned into its enumeration member
   * as soon as it is read, so an unknown compression tag is reported
   * before the encryption tag is read.
   */
  function HeaderAt(buf: Bytes, pos: nat, tags: TagSets): (r: Result<Header, ParseError>)
    ensures r.Success? ==> pos + RecordHeaderSize <= |buf|
    ensures r.Success? ==> r.value.zip in tags.compression && r.value.enc in tags.encryption
  {
    var offset :- Truncation(ReadU32(buf, pos));
    var length :- Truncation(ReadU32(buf, pos + 4));
    var original :- Truncation(ReadU32(buf, pos + 8));
    var zip :- ReadTag(buf, pos + 12);
    if zip !in tags.compression then Failure(UnknownCompression(zip)) else
    var enc :- ReadTag(buf, pos + 14);
    if enc !in tags.encryption then Failure(UnknownEncryption(enc)) else
    var nameLength :- Truncation(ReadU16(buf, pos + 16));
    Success(Header(offset, length, original, zip, enc, nameLength))
  }

  /** Where `read(n)` from `start` stops: after `n` bytes, or at the end of the file. */
  function ReadEnd(buf: Bytes, start: nat, n: nat): (end: nat)
    requires start <= |buf|
    ensures start <= end <= |buf| && end <= start + n
    ensures end < start + n ==> end == |buf|
  {
    if start + n <= |buf| then start + n else |buf|
  }

  /**
   * The name of `nameLength` bytes at `start` and the position after it.
   * The read is `read(name_len)`: at the end of the file it returns the
   * bytes that are left without raising, and only the UTF-8 decoding of
   * what was read can then fail.
   */
  function NameAt(buf: Bytes, start: nat, nameLength: nat): (r: Result<(string, nat), ParseError>)
    requires start <= |buf|
    ensures r.Success? ==> r.value.1 == ReadEnd(buf, start, nameLength)
    ensures r.Success? <==> WellFormedRange(buf, start, ReadEnd(buf, start, nameLength))
  {
    var end := ReadEnd(buf, start, nameLength);
    match DecodeRange(buf, start, end)
    case Some(s) => Success((s, end))
    case None => Failure(BadFilename(start))
  }

  /** One record at `pos` and the position after it. */
  function RecordAt(buf: Bytes, pos: nat, tags: TagSets): (r: Result<(Index, nat), ParseError>)
    ensures r.Success? ==> pos + RecordHeaderSize <= r.value.1 <= |buf|
    ensures r.Success? ==> var idx := r.value.0;
      && idx.zcrc == 0 && idx.crc == 0 && idx.fileStructure == None && idx.dataFlags == NoFlags
      && idx.zipFlag in tags.compression && idx.encryptFlag in tags.encryption
  {
    var h :- HeaderAt(buf, pos, tags);
    var name :- NameAt(buf, pos + RecordHeaderSize, h.nameLength);
    var idx := DefaultIndex().(filename := name.0, fileOffset := h.offset, fileLength := h.length,
                               fileOriginalLength := h.original, zipFlag := h.zip, encryptFlag := h.enc);
    Success((idx, name.1))
  }

  /** Reads one record at a position: the record and the position after it. */
  type RecordReader = nat -> Result<(Index, nat), ParseError>

  /** The record reader of an index file. */
  function Reader(buf: Bytes, tags: TagSets): RecordReader {
    p => RecordAt(buf, p, tags)
  }

  /** `count` records from `pos` with `read`, in file order, and the position after them. */
  function ReadTable(read: RecordReader, pos: nat, count: nat): (r: Result<(seq<Index>, nat), ParseError>)
    ensures r.Success? ==> |r.value.0| == count
    decreases count
  {
    if count == 0 then Success(([], pos))
    else
      match read(pos)
      case Failure(e) => Failure(e)
      case Success(first) =>
        match ReadTable(read, first.1, count - 1)
        case Failure(e) => Failure(e)
        case Success(rest) => Success(([first.0] + rest.0, rest.1))
  }

  /** `count` records of the index file from `pos`. */
  function Records(buf: Bytes, pos: nat, count: nat, tags: TagSets): (r: Result<(seq<Index>, nat), ParseError>)
    ensures r.Success? ==> |r.value.0| == count
  {
    ReadTable(Reader(buf, tags), pos, count)
  }

  /** The records read so far, put in front of what the rest of the table reads to. */
  function Prepend(done: seq<Index>, rest: Result<(seq<Index>, nat), ParseError>): Result<(seq<Index>, nat), ParseError> {
    match rest
    case Failure(e) => Failure(e)
    case Success(r) => Success((done + r.0, r.1))
  }

  /** The whole index file: the count, then the records. Bytes after the last record are ignored. */
  function ParseIndexFile(buf: Bytes, tags: TagSets): (r: Result<seq<Index>, ParseError>)
    ensures |buf| < 4 ==> r == Failure(Truncated(0))
    ensures r.Success? ==> ReadU32(buf, 0).Success? && |r.value| == ReadU32(buf, 0).value
  {
    var count :- Truncation(ReadU32(buf, 0));
    var records :- Records(buf, 4, count, tags);
    Success(records.0)
  }

  // ------------------------------------------------------------------ layout

  /** A record as it is stored: the index entry and the length in bytes of its name. */
  datatype StoredRecord = StoredRecord(index: Index, nameLength: nat)

  /** The bytes a record takes: the fixed header and the name. */
  function RecordSize(rec: StoredRecord): nat {
    RecordHeaderSize + rec.nameLength
  }

  /** Where a record placed at `pos` ends: after its header and its name. */
  function RecordEnd(pos: nat, rec: StoredRecord): nat {
    pos + RecordHeaderSize + rec.nameLength
  }

  /**
   * The record layout: offset, length and original length as u32 at
   * `pos`, `pos + 4` and `pos + 8`, the compression and encryption tags as
   * u16 at `pos + 12` and `pos + 14`, the name length as u16 at
   * `pos + 16`, then the name: that many bytes of UTF-8 for the entry's filename.
   * Each field is stated by the value it reads as; `U32RoundTrip` and
   * `U16RoundTrip` give the little-endian bytes that hold it. The fields
   * the index does not hold keep their defaults.
   */
  predicate RecordLaidOut(buf: Bytes, pos: nat, rec: StoredRecord) {
    var idx := rec.index;
    && ReadU32(buf, pos) == Success(idx.fileOffset)
    && ReadU32(buf, pos + 4) == Success(idx.fileLength)
    && ReadU32(buf, pos + 8) == Success(idx.fileOriginalLength)
    && ReadU16(buf, pos + 12) == Success(idx.zipFlag as nat)
    && ReadU16(buf, pos + 14) == Success(idx.encryptFlag as nat)
    && ReadU16(buf, pos + 16) == Success(rec.nameLength)
    && RecordEnd(pos, rec) <= |buf|
    && DecodeRange(buf, pos + RecordHeaderSize, RecordEnd(pos, rec)) == Some(idx.filename)
    && idx.zcrc == 0 && idx.crc == 0 && idx.fileStructure == None && idx.dataFlags == NoFlags
  }

  function RecordsSize(recs: seq<StoredRecord>): nat {
    if recs == [] then 0 else RecordSize(recs[0]) + RecordsSize(recs[1..])
  }

  /** Whether a record is laid out at a position. */
  type Placement = (nat, StoredRecord) -> bool

  /** The placement of records in an index file. */
  function Layout(buf: Bytes): Placement {
    (p: nat, rec: StoredRecord) => RecordLaidOut(buf, p, rec)
  }

  /** Each record of `recs` is placed where the previous one ends, the first at `pos`. */
  predicate Tiled(fits: Placement, pos: nat, recs: seq<StoredRecord>)
    decreases |recs|
  {
    recs == [] ||
    (fits(pos, recs[0]) && Tiled(fits, RecordEnd(pos, recs[0]), recs[1..]))
  }

  /** The records `recs` laid out one after another from `pos`. */
  predicate RecordsLaidOut(buf: Bytes, pos: nat, recs: seq<StoredRecord>) {
    Tiled(Layout(buf), pos, recs)
  }

  /** An index file holding `recs`: the u32 count, then the records. */
  predicate IndexLaidOut(buf: Bytes, recs: seq<StoredRecord>) {
    ReadU32(buf, 0) == Success(|recs|) && RecordsLaidOut(buf, 4, recs)
  }

  /** The index entries of stored records. */
  function Entries(recs: seq<StoredRecord>): (idxs: seq<Index>)
    ensures |idxs| == |recs|
    ensures forall i :: 0 <= i < |recs| ==> idxs[i] == recs[i].index
  {
    if recs == [] then [] else [recs[0].index] + Entries(recs[1..])
  }

  /** Both tags of a record are members of their enumerations. */
  predicate KnownTag(rec: StoredRecord, tags: TagSets) {
    rec.index.zipFlag in tags.compression && rec.index.encryptFlag in tags.encryption
  }

  /** Every tag of `recs` is a member of its enumeration. */
  predicate KnownTags(recs: seq<StoredRecord>, tags: TagSets) {
    forall rec :: rec in recs ==> KnownTag(rec, tags)
  }

  /**
   * Name bytes written in place meet the layout's condition on the name;
   * by `Utf8.DecodeEncode` the UTF-8 encoding of any name does.
   */
  lemma NameInPlace(buf: Bytes, start: nat, b: Bytes, name: string)
    requires start + |b| <= |buf| && buf[start..start + |b|] == b && Decode(b) == Some(name)
    ensures DecodeRange(buf, start, start + |b|) == Some(name)
  {
    assert b[0..|b|] == b;
    DecodeWindow(buf, start, start + |b|, b, 0, |b|);
  }

  // ------------------------------------------------------------------ lemmas

  /** The header of a laid-out record reads back field by field. */
  lemma HeaderRoundTrip(buf: Bytes, pos: nat, rec: StoredRecord, tags: TagSets)
    requires RecordLaidOut(buf, pos, rec)
    requires rec.index.zipFlag in tags.compression && rec.index.encryptFlag in tags.encryption
    ensures HeaderAt(buf, pos, tags) == Success(Header(rec.index.fileOffset, rec.index.fileLength,
      rec.index.fileOriginalLength, rec.index.zipFlag, rec.index.encryptFlag, rec.nameLength))
  {
  }

  /** Name bytes in place read back as the text they decode to. */
  lemma NameRoundTrip(buf: Bytes, start: nat, n: nat, name: string)
    requires start + n <= |buf| && DecodeRange(buf, start, start + n) == Some(name)
    ensures NameAt(buf, start, n) == Success((name, start + n))
  {
  }

  /** A record is its header and its name. */
  lemma RecordFromParts(buf: Bytes, pos: nat, h: Header, name: string, end: nat, tags: TagSets)
    requires HeaderAt(buf, pos, tags) == Success(h)
    requires NameAt(buf, pos + RecordHeaderSize, h.nameLength) == Success((name, end))
    ensures RecordAt(buf, pos, tags) == Success((DefaultIndex().(filename := name, fileOffset := h.offset,
      fileLength := h.length, fileOriginalLength := h.original, zipFlag := h.zip, encryptFlag := h.enc), end))
  {
  }

  /**
   * The fields are read in the order of the layout: a record laid out at
   * `pos` reads back as the same entry, provided its tags are known.
   */
  lemma RecordRoundTrip(buf: Bytes, pos: nat, rec: StoredRecord, tags: TagSets)
    requires RecordLaidOut(buf, pos, rec)
    requires rec.index.zipFlag in tags.compression && rec.index.encryptFlag in tags.encryption
    ensures RecordAt(buf, pos, tags) == Success((rec.index, RecordEnd(pos, rec)))
  {
    var h := Header(rec.index.fileOffset, rec.index.fileLength, rec.index.fileOriginalLength,
                    rec.index.zipFlag, rec.index.encryptFlag, rec.nameLength);
    HeaderRoundTrip(buf, pos, rec, tags);
    NameRoundTrip(buf, pos + RecordHeaderSize, rec.nameLength, rec.index.filename);
    RecordFromParts(buf, pos, h, rec.index.filename, RecordEnd(pos, rec), tags);
    Rebuilt(rec.index);
  }

  /** An index entry with the defaults the index does not hold is rebuilt from its read fields. */
  lemma Rebuilt(idx: Index)
    requires idx.zcrc == 0 && idx.crc == 0 && idx.fileStructure == None && idx.dataFlags == NoFlags
    ensures DefaultIndex().(filename := idx.filename, fileOffset := idx.fileOffset,
      fileLength := idx.fileLength, fileOriginalLength := idx.fileOriginalLength,
      zipFlag := idx.zipFlag, encryptFlag := idx.encryptFlag) == idx
  {
  }

  /** A record laid out with an unknown tag is rejected where it stands. */
  lemma RecordRejectsUnknownTag(buf: Bytes, pos: nat, rec: StoredRecord, tags: TagSets)
    requires RecordLaidOut(buf, pos, rec)
    requires rec.index.zipFlag !in tags.compression || rec.index.encryptFlag !in tags.encryption
    ensures HeaderAt(buf, pos, tags).Failure? && RecordAt(buf, pos, tags).Failure?
  {
  }

  /** Each record of `recs` reads back with `read` where the previous one ends. */
  predicate ReadsBack(read: RecordReader, pos: nat, recs: seq<StoredRecord>)
    decreases |recs|
  {
    recs == [] ||
    (read(pos) == Success((recs[0].index, RecordEnd(pos, recs[0])))
     && ReadsBack(read, RecordEnd(pos, recs[0]), recs[1..]))
  }

  /** Records that each read back are read in order by `ReadTable`. */
  lemma {:induction false} ReadsBackTable(read: RecordReader, pos: nat, recs: seq<StoredRecord>)
    requires ReadsBack(read, pos, recs)
    ensures ReadTable(read, pos, |recs|) == Success((Entries(recs), pos + RecordsSize(recs)))
    decreases |recs|
  {
    if recs != [] {
      ReadsBackTable(read, RecordEnd(pos, recs[0]), recs[1..]);
    }
  }

  /** When record `k` does not read back, nor does the table. */
  lemma {:induction false} TableFailsAt(read: RecordReader, pos: nat, recs: seq<StoredRecord>, k: nat)
    requires k < |recs| && ReadsBack(read, pos, recs[..k])
    requires read(pos + RecordsSize(recs[..k])).Failure?
    ensures ReadTable(read, pos, |recs|).Failure?
    decreases k
  {
    if k > 0 {
      var rest := recs[1..];
      assert recs[..k][0] == recs[0] && recs[..k][1..] == rest[..k - 1];
      TableFailsAt(read, RecordEnd(pos, recs[0]), rest, k - 1);
    } else {
      assert recs[..k] == [];
    }
  }

  /** Tiled records each read back when every record reads back wherever it is placed. */
  lemma {:induction false} TiledReadsBack(fits: Placement, read: RecordReader, pos: nat, recs: seq<StoredRecord>)
    requires Tiled(fits, pos, recs)
    requires forall p: nat, rec :: rec in recs && fits(p, rec) ==>
      read(p) == Success((rec.index, RecordEnd(p, rec)))
    ensures ReadsBack(read, pos, recs)
    decreases |recs|
  {
    if recs != [] {
      TiledReadsBack(fits, read, RecordEnd(pos, recs[0]), recs[1..]);
    }
  }

  /** `RecordRoundTrip` through the placement and the reader of the index file. */
  lemma PlacedReadsBack(buf: Bytes, p: nat, rec: StoredRecord, tags: TagSets)
    requires Layout(buf)(p, rec) && KnownTag(rec, tags)
    ensures Reader(buf, tags)(p) == Success((rec.index, RecordEnd(p, rec)))
  {
    RecordRoundTrip(buf, p, rec, tags);
  }

  /** Wherever a record with known tags is laid out, the index file's reader reads it back. */
  lemma LayoutReadsBack(buf: Bytes, tags: TagSets)
    ensures forall p: nat, rec :: KnownTag(rec, tags) && Layout(buf)(p, rec) ==>
      Reader(buf, tags)(p) == Success((rec.index, RecordEnd(p, rec)))
  {
    forall p: nat, rec | KnownTag(rec, tags) && Layout(buf)(p, rec)
      ensures Reader(buf, tags)(p) == Success((rec.index, RecordEnd(p, rec)))
    {
      PlacedReadsBack(buf, p, rec, tags);
    }
  }

  /** Laid-out records with known tags each read back from the index file. */
  lemma LaidOutReadsBack(buf: Bytes, pos: nat, recs: seq<StoredRecord>, tags: TagSets)
    requires RecordsLaidOut(buf, pos, recs) && KnownTags(recs, tags)
    ensures ReadsBack(Reader(buf, tags), pos, recs)
  {
    LayoutReadsBack(buf, tags);
    TiledReadsBack(Layout(buf), Reader(buf, tags), pos, recs);
  }

  /** Records laid out from `pos` read back in order: ordinal i is the i-th record of the file. */
  lemma RecordsRoundTrip(buf: Bytes, pos: nat, recs: seq<StoredRecord>, tags: TagSets)
    requires RecordsLaidOut(buf, pos, recs) && KnownTags(recs, tags)
    ensures Records(buf, pos, |recs|, tags) == Success((Entries(recs), pos + RecordsSize(recs)))
  {
    LaidOutReadsBack(buf, pos, recs, tags);
    ReadsBackTable(Reader(buf, tags), pos, recs);
  }

  /** The parser reads back exactly the entries of a well-laid-out index file. */
  lemma IndexFileRoundTrip(buf: Bytes, recs: seq<StoredRecord>, tags: TagSets)
    requires IndexLaidOut(buf, recs) && KnownTags(recs, tags)
    ensures ParseIndexFile(buf, tags) == Success(Entries(recs))
  {
    RecordsRoundTrip(buf, 4, recs, tags);
  }

  /** The records before `k` of a tiling are tiled, and record `k` is placed where they end. */
  lemma {:induction false} TiledPrefix(fits: Placement, pos: nat, recs: seq<StoredRecord>, k: nat)
    requires Tiled(fits, pos, recs) && k < |recs|
    ensures Tiled(fits, pos, recs[..k])
    ensures fits(pos + RecordsSize(recs[..k]), recs[k])
    decreases k
  {
    if k > 0 {
      var rest := recs[1..];
      assert recs[..k][0] == recs[0] && recs[..k][1..] == rest[..k - 1];
      TiledPrefix(fits, RecordEnd(pos, recs[0]), rest, k - 1);
    } else {
      assert recs[..k] == [];
    }
  }

  /** A record whose compression or encryption tag is not a member aborts the read of the table. */
  lemma RecordsRejectUnknownTag(buf: Bytes, pos: nat, recs: seq<StoredRecord>, tags: TagSets, k: nat)
    requires RecordsLaidOut(buf, pos, recs) && k < |recs|
    requires KnownTags(recs[..k], tags) && !KnownTag(recs[k], tags)
    ensures Records(buf, pos, |recs|, tags).Failure?
  {
    TiledPrefix(Layout(buf), pos, recs, k);
    LaidOutReadsBack(buf, pos, recs[..k], tags);
    RecordRejectsUnknownTag(buf, pos + RecordsSize(recs[..k]), recs[k], tags);
    TableFailsAt(Reader(buf, tags), pos, recs, k);
  }

  /** An unknown tag anywhere in a laid-out index file makes opening it fail. */
  lemma UnknownTagAborts(buf: Bytes, recs: seq<StoredRecord>, tags: TagSets, k: nat)
    requires IndexLaidOut(buf, recs) && k < |recs|
    requires KnownTags(recs[..k], tags) && !KnownTag(recs[k], tags)
    ensures ParseIndexFile(buf, tags).Failure?
  {
    RecordsRejectUnknownTag(buf, 4, recs, tags, k);
  }

  /** Reading the table one record at a time: the first record, then the rest from where it ends. */
  lemma RecordsUnfold(buf: Bytes, pos: nat, count: nat, tags: TagSets)
    requires count > 0
    ensures Records(buf, pos, count, tags) ==
      match RecordAt(buf, pos, tags)
      case Failure(e) => Failure(e)
      case Success(first) => Prepend([first.0], Records(buf, first.1, count - 1, tags))
  {
  }
}
