/**
 * The records of core/wpk/class_types.py: read options, the index record
 * parsed from the IDX file and the entry resolved from it.
 */
module EntryTypes {
  import opened Wrappers
  import opened Bytes
  import opened DataFlags
  import opened ContentDetection

  /** A compression or encryption tag as stored in the index: a u16. */
  type Tag = t: int | 0 <= t < 0x10000

  /** The NONE member of both tag enumerations. */
  const NoneTag: Tag := 0

  /** WPKReadOptions. */
  datatype ReadOptions = ReadOptions(decryptionKey: Option<int>, aesKey: Option<Bytes>, infoSize: Option<int>)

  /** `WPKReadOptions()`: every option absent. */
  function DefaultReadOptions(): ReadOptions {
    ReadOptions(None, None, None)
  }

  /** WPKIndex: one record of the index table. */
  datatype Index = Index(
    filename: string,
    fileOffset: nat,
    fileLength: nat,
    fileOriginalLength: nat,
    zcrc: nat,
    crc: nat,
    fileStructure: Option<Bytes>,
    zipFlag: Tag,
    encryptFlag: Tag,
    dataFlags: Flags)

  /** `WPKIndex()`: every field at its declared default. */
  function DefaultIndex(): Index {
    Index("", 0, 0, 0, 0, 0, None, NoneTag, NoneTag, NoFlags)
  }

  /** WPKEntry: the index fields (`meta`) plus the decoded content and its classification. */
  datatype Entry = Entry(meta: Index, data: Bytes, extension: string, category: Category)

  /** `WPKEntry()`. */
  function NewEntry(): Entry {
    Entry(DefaultIndex(), [], "", Other)
  }

  /** A fresh entry whose index fields are copied from `idx` (`setattr` over `vars(idx)`). */
  function FromIndex(idx: Index): (e: Entry)
    ensures e == NewEntry().(meta := idx)
  {
    Entry(idx, [], "", Other)
  }

  /** The `is_compressed` property. */
  predicate IsCompressed(e: Entry) {
    e.meta.zipFlag != NoneTag
  }

  /** The `is_encrypted` property. */
  predicate IsEncrypted(e: Entry) {
    e.meta.encryptFlag != NoneTag
  }

  /** `get_data()`. */
  function GetData(e: Entry): Bytes {
    e.data
  }

  /** What a fresh entry reports through its accessors: nothing stored, no tag, no flag. */
  lemma FreshEntryDefaults(bit: Flags)
    requires IsFlag(bit)
    ensures var e := NewEntry();
      && !IsCompressed(e) && !IsEncrypted(e) && GetData(e) == []
      && e.meta.filename == "" && e.extension == "" && e.category == Other
      && e.meta.fileOffset == e.meta.fileLength == e.meta.fileOriginalLength == 0
      && e.meta.zcrc == e.meta.crc == 0 && e.meta.fileStructure.None?
      && !HasFlag(e.meta.dataFlags, bit)
  {
    FlagsAreDistinctBits(bit, bit);
  }

  /** An entry built from an index record reports that record's tags and no data yet. */
  lemma FromIndexAccessors(idx: Index)
    ensures IsCompressed(FromIndex(idx)) <==> idx.zipFlag != NoneTag
    ensures IsEncrypted(FromIndex(idx)) <==> idx.encryptFlag != NoneTag
    ensures GetData(FromIndex(idx)) == []
  {
  }
}
