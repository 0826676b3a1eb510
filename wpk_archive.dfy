/**
 * The archive reader of core/wpk/wpk_file.py: a WPKFile holds the index
 * table read from the IDX file and a memo of the entries resolved from
 * the WPK data file. Resolving an entry cuts its payload out of the data
 * file and runs it through decryption, decompression, the two unpackers
 * and content classification, in that order.
 */
module WpkArchive {
  import opened Wrappers
  import opened Bytes
  import opened DataFlags
  import opened EntryTypes
  import opened ContentDetection
  import opened IndexParser
  import opened Paths

  /**
   * The decoding primitives of core/npk/decryption.py and
   * core/npk/decompression.py, which are not part of this model. `decrypt`
   * and `decompress` give None where the primitive raises.
   */
  datatype Primitives = Primitives(
    decrypt: (Entry, Option<int>) -> Option<Bytes>,
    decompress: Entry -> Option<Bytes>,
    checkRotor: Entry -> bool,
    unpackRotor: Bytes -> Bytes,
    checkNxs3: Entry -> bool,
    unpackNxs3: Bytes -> Bytes)

  /**
   * The content classification an archive applies to every loaded entry:
   * the binary test, the extension finder and the category lookup. The
   * archive holds it as a value so that reasoning about the memo does not
   * look inside it; `Detection` is the one every archive is opened with.
   */
  datatype Detector = Detector(
    isBinary: Bytes -> bool,
    getExt: (Bytes, Flags) -> string,
    category: string -> Category)

  /** `is_binary`, `get_ext` and `get_file_category` of core/npk/detection.py. */
  const Detection: Detector := Detector(IsBinary, GetExt, FileCategory)

  /** The exception `read_entry` lets through: `decrypt_entry` raised. */
  datatype LoadError = DecryptFailed

  /** One file written by `extract_all` through `save_to_file`. */
  datatype Written = Written(path: string, data: Bytes)

  /** `wpk_path or splitext(idx_path)[0] + ".wpk"`: a missing or empty data path is derived from the index path. */
  function EffectiveWpkPath(idxPath: string, wpkPath: Option<string>): (p: string)
    ensures wpkPath.Some? && wpkPath.value != "" ==> p == wpkPath.value
    ensures (wpkPath.None? || wpkPath.value == "") ==> p == Root(idxPath) + ".wpk"
    ensures (wpkPath.None? || wpkPath.value == "") && HasPlainStem(Root(idxPath)) ==> SplitExt(p) == (Root(idxPath), ".wpk")
  {
    if wpkPath.Some? && wpkPath.value != "" then wpkPath.value
    else
      var p := Root(idxPath) + ".wpk";
      if HasPlainStem(Root(idxPath)) then
        RootOfReplacedExtension(idxPath, ".wpk");
        p
      else p
  }

  // ---------------------------------------------------------------- the pipeline

  /** `entry.data_flags |= bit`. */
  function AddFlag(e: Entry, bit: Flags): (r: Entry)
    requires IsFlag(bit)
    ensures r.data == e.data && r.extension == e.extension && r.category == e.category
    ensures r.meta == e.meta.(dataFlags := r.meta.dataFlags)
    ensures HasFlag(r.meta.dataFlags, bit)
    ensures forall other :: IsFlag(other) && other != bit ==>
      (HasFlag(r.meta.dataFlags, other) <==> HasFlag(e.meta.dataFlags, other))
  {
    e.(meta := e.meta.(dataFlags := WithFlag(e.meta.dataFlags, bit)))
  }

  /**
   * `file.seek(file_offset); file.read(file_length)`: the payload of an
   * index record, cut short at the end of the data file without error.
   */
  function RawPayload(wpkData: Bytes, idx: Index): (r: Bytes)
    ensures |r| <= idx.fileLength
    ensures idx.fileOffset + idx.fileLength <= |wpkData| ==>
      r == wpkData[idx.fileOffset..idx.fileOffset + idx.fileLength]
    ensures idx.fileOffset >= |wpkData| ==> r == []
    ensures idx.fileOffset < |wpkData| < idx.fileOffset + idx.fileLength ==> r == wpkData[idx.fileOffset..]
  {
    SliceLengthBound(wpkData, idx.fileOffset, idx.fileOffset + idx.fileLength);
    Slice(wpkData, idx.fileOffset, idx.fileOffset + idx.fileLength)
  }

  /** The entry holding its raw payload. */
  function Fetched(e: Entry, wpkData: Bytes): Entry {
    e.(data := RawPayload(wpkData, e.meta))
  }

  /** Decryption, run only for an encryption tag other than NONE. */
  function Decrypted(e: Entry, key: Option<int>, prims: Primitives): (r: Result<Entry, LoadError>)
    ensures e.meta.encryptFlag == NoneTag ==> r == Success(e)
    ensures r.Success? ==> r.value == e.(data := r.value.data)
  {
    if e.meta.encryptFlag == NoneTag then Success(e)
    else match prims.decrypt(e, key)
      case None => Failure(DecryptFailed)
      case Some(d) => Success(e.(data := d))
  }

  /** The flag a failed decompression adds: ENCRYPTED when a non-zero key was given, ERROR otherwise. */
  function FailureFlag(key: Option<int>): (bit: Flags)
    ensures IsFlag(bit)
    ensures bit == EncryptedFlag || bit == ErrorFlag
    ensures bit == EncryptedFlag <==> key.Some? && key.value != 0
  {
    if key.Some? && key.value != 0 then EncryptedFlag else ErrorFlag
  }

  /** The rotor step, then the nxs3 step: each, when its check holds, adds its flag and unpacks the data. */
  function Unpacked(e: Entry, prims: Primitives): (r: Entry)
    ensures r.meta == e.meta.(dataFlags := r.meta.dataFlags)
    ensures r.extension == e.extension && r.category == e.category
  {
    var r := if prims.checkRotor(e) then AddFlag(e, RotorPackedFlag).(data := prims.unpackRotor(e.data)) else e;
    if prims.checkNxs3(r) then AddFlag(r, Nxs3PackedFlag).(data := prims.unpackNxs3(r.data)) else r
  }

  /** The TEXT bit from `is_binary`, then the extension of the data under the flags and its category. */
  function Classified(e: Entry, det: Detector): (r: Entry)
    ensures r.data == e.data && r.meta.filename == e.meta.filename
    ensures HasFlag(r.meta.dataFlags, TextFlag) <==> HasFlag(e.meta.dataFlags, TextFlag) || !det.isBinary(e.data)
    ensures forall bit :: IsFlag(bit) && bit != TextFlag ==>
      (HasFlag(r.meta.dataFlags, bit) <==> HasFlag(e.meta.dataFlags, bit))
    ensures r.extension == det.getExt(r.data, r.meta.dataFlags)
    ensures r.category == det.category(r.extension)
  {
    var t := if !det.isBinary(e.data) then AddFlag(e, TextFlag) else e;
    var ext := det.getExt(t.data, t.meta.dataFlags);
    t.(extension := ext, category := det.category(ext))
  }

  /**
   * What `_load_entry_data` leaves in an entry: the raw payload, decrypted,
   * then decompressed; a failed decompression adds the failure flag and
   * stops there; otherwise the unpackers and the classification follow.
   * A failed decryption is not caught and aborts the resolution.
   */
  function LoadEntry(e: Entry, wpkData: Bytes, key: Option<int>, prims: Primitives, det: Detector): (r: Result<Entry, LoadError>)
    ensures r.Failure? <==> IsEncrypted(e) && prims.decrypt(Fetched(e, wpkData), key).None?
    ensures r.Success? ==> r.value.meta == e.meta.(dataFlags := r.value.meta.dataFlags)
  {
    var dec :- Decrypted(Fetched(e, wpkData), key, prims);
    if dec.meta.zipFlag == NoneTag then Success(Classified(Unpacked(dec, prims), det))
    else match prims.decompress(dec)
      case None => Success(AddFlag(dec, FailureFlag(key)))
      case Some(d) => Success(Classified(Unpacked(dec.(data := d), prims), det))
  }

  /** `filename + "." + extension` when the extension is not empty. */
  function WithSuffix(e: Entry): (r: Entry)
    ensures e.extension != "" ==> r.meta.filename == e.meta.filename + "." + e.extension
    ensures e.extension == "" ==> r == e
    ensures r == e.(meta := r.meta) && r.meta == e.meta.(filename := r.meta.filename)
  {
    if e.extension != "" then e.(meta := e.meta.(filename := e.meta.filename + "." + e.extension)) else e
  }

  /** The entry `read_entry` resolves for an index record that is not yet in the memo. */
  function Resolve(idx: Index, wpkData: Bytes, key: Option<int>, prims: Primitives, det: Detector): (r: Result<Entry, LoadError>)
    ensures r.Success? ==> r.value.meta == idx.(filename := r.value.meta.filename, dataFlags := r.value.meta.dataFlags)
    ensures r.Success? ==> r.value.meta.filename == if r.value.extension == "" then idx.filename else idx.filename + "." + r.value.extension
  {
    var e :- LoadEntry(FromIndex(idx), wpkData, key, prims, det);
    Success(WithSuffix(e))
  }

  /** The placeholder for an ordinal outside the table: a fresh entry whose only flag is ERROR. */
  function OutOfRangeEntry(): (e: Entry)
    ensures e == NewEntry().(meta := e.meta) && e.meta == DefaultIndex().(dataFlags := e.meta.dataFlags)
    ensures forall bit :: IsFlag(bit) ==> (HasFlag(e.meta.dataFlags, bit) <==> bit == ErrorFlag)
  {
    FlagsAreDistinctBits(ErrorFlag, ErrorFlag);
    AddFlag(NewEntry(), ErrorFlag)
  }

  /** The file `save_to_file` writes for a resolved entry under `outputDir`. */
  function Saved(outputDir: string, e: Entry): Written {
    Written(Join(outputDir, e.meta.filename), e.data)
  }

  /**
   * What `extract_all` leaves behind when the table is `idxs`: one file per
   * record in order, each from that record's resolution, up to the first
   * record that fails, whose error ends the run; every record's file when
   * none fails.
   */
  ghost predicate Extracted(written: seq<Written>, err: Option<LoadError>, idxs: seq<Index>, wpkData: Bytes,
                            key: Option<int>, prims: Primitives, det: Detector, outputDir: string)
  {
    && |written| <= |idxs|
    && (err.None? <==> |written| == |idxs|)
    && (forall k :: 0 <= k < |written| ==>
          Resolve(idxs[k], wpkData, key, prims, det).Success?
          && written[k] == Saved(outputDir, Resolve(idxs[k], wpkData, key, prims, det).value))
    && (err.Some? ==> Resolve(idxs[|written|], wpkData, key, prims, det) == Failure(err.value))
  }

  // ---------------------------------------------------------------- the reader

  class WPKFile {
    const idxPath: string
    const wpkPath: string
    const options: ReadOptions
    /** The contents of the data file, which stays the same while the archive is open. */
    const wpkData: Bytes
    const prims: Primitives
    const detect: Detector

    var indices: seq<Index>
    var entries: map<int, Entry>
    /** How many times the data file has been opened. */
    ghost var opens: nat

    /** Every memo entry belongs to a record of the table and is what resolving that record gives. */
    ghost predicate Valid()
      reads this
    {
      && (forall i :: i in entries ==> 0 <= i < |indices|)
      && forall i {:trigger Resolved(i)} :: i in entries && 0 <= i < |indices| ==> Resolved(i) == Success(entries[i])
    }

    /** Resolution of record `i` of the table. */
    function Resolved(i: int): Result<Entry, LoadError>
      reads this`indices
      requires 0 <= i < |indices|
    {
      Resolve(indices[i], wpkData, options.decryptionKey, prims, detect)
    }

    /** The fields `__init__` sets before it reads the index. */
    constructor Init(idxPath: string, wpkPath: Option<string>, options: Option<ReadOptions>,
                     wpkData: Bytes, prims: Primitives)
      ensures this.idxPath == idxPath && this.wpkPath == EffectiveWpkPath(idxPath, wpkPath)
      ensures this.options == options.GetOr(DefaultReadOptions())
      ensures this.wpkData == wpkData && this.prims == prims && detect == Detection
      ensures indices == [] && entries == map[] && opens == 0
      ensures Valid()
    {
      this.idxPath := idxPath;
      this.wpkPath := EffectiveWpkPath(idxPath, wpkPath);
      this.options := options.GetOr(DefaultReadOptions());
      this.wpkData := wpkData;
      this.prims := prims;
      detect := Detection;
      indices := [];
      entries := map[];
      opens := 0;
    }

    /**
     * `_read_indices`: the count, then the records one after another,
     * each appended as soon as it is read. A failing field read, an
     * unknown tag or a name that does not decode raises.
     */
    method ReadIndices(idxData: Bytes, tags: TagSets) returns (r: Result<(), ParseError>)
      requires indices == []
      modifies this
      ensures entries == old(entries) && opens == old(opens)
      ensures r.Success? <==> ParseIndexFile(idxData, tags).Success?
      ensures r.Success? ==> indices == ParseIndexFile(idxData, tags).value
      ensures r.Failure? ==> r.error == ParseIndexFile(idxData, tags).error
    {
      var count :- Truncation(ReadU32(idxData, 0));
      PrependNothing(Records(idxData, 4, count, tags));
      var pos := 4;
      var k := 0;
      while k < count
        invariant 0 <= k <= count
        invariant entries == old(entries) && opens == old(opens)
        invariant Records(idxData, 4, count, tags) == Prepend(indices, Records(idxData, pos, count - k, tags))
      {
        RecordsUnfold(idxData, pos, count - k, tags);
        var record := RecordAt(idxData, pos, tags);
        if record.Failure? {
          assert Records(idxData, 4, count, tags) == Failure(record.error);
          return Failure(record.error);
        }
        PrependTwice(indices, [record.value.0], Records(idxData, record.value.1, count - k - 1, tags));
        indices := indices + [record.value.0];
        pos := record.value.1;
        k := k + 1;
      }
      assert indices + [] == indices;
      assert Records(idxData, 4, count, tags).value.0 == indices;
      return Success(());
    }

    /** `WPKFile(idx_path, wpk_path, options)`: the fields, then the index read from the IDX file's contents. */
    static method Open(idxPath: string, wpkPath: Option<string>, options: Option<ReadOptions>,
                       idxData: Bytes, wpkData: Bytes, tags: TagSets, prims: Primitives)
      returns (r: Result<WPKFile, ParseError>)
      ensures r.Success? <==> ParseIndexFile(idxData, tags).Success?
      ensures r.Failure? ==> r.error == ParseIndexFile(idxData, tags).error
      ensures r.Success? ==> var f := r.value;
        && fresh(f) && f.Valid()
        && f.indices == ParseIndexFile(idxData, tags).value && f.entries == map[] && f.opens == 0
        && f.idxPath == idxPath && f.wpkPath == EffectiveWpkPath(idxPath, wpkPath)
        && f.options == options.GetOr(DefaultReadOptions()) && f.wpkData == wpkData && f.prims == prims
        && f.detect == Detection
    {
      var f := new WPKFile.Init(idxPath, wpkPath, options, wpkData, prims);
      var read := f.ReadIndices(idxData, tags);
      if read.Failure? {
        return Failure(read.error);
      }
      return Success(f);
    }

    /** `is_entry_loaded`. */
    predicate IsEntryLoaded(index: int)
      reads this
    {
      index in entries
    }

    /**
     * `_load_entry_data`: the payload is cut from the data file and the
     * entry is updated step by step.
     */
    method LoadEntryData(entry: Entry) returns (r: Result<Entry, LoadError>)
      ensures r == LoadEntry(entry, wpkData, options.decryptionKey, prims, detect)
    {
      var e := entry.(data := Slice(wpkData, entry.meta.fileOffset, entry.meta.fileOffset + entry.meta.fileLength));
      if e.meta.encryptFlag != NoneTag {
        var plain := prims.decrypt(e, options.decryptionKey);
        if plain.None? {
          return Failure(DecryptFailed);
        }
        e := e.(data := plain.value);
      }
      assert Decrypted(Fetched(entry, wpkData), options.decryptionKey, prims) == Success(e);
      if e.meta.zipFlag != NoneTag {
        var inflated := prims.decompress(e);
        if inflated.None? {
          e := AddFlag(e, FailureFlag(options.decryptionKey));
          return Success(e);
        }
        e := e.(data := inflated.value);
      }
      ghost var packed := e;
      if prims.checkRotor(e) {
        e := AddFlag(e, RotorPackedFlag);
        e := e.(data := prims.unpackRotor(e.data));
      }
      if prims.checkNxs3(e) {
        e := AddFlag(e, Nxs3PackedFlag);
        e := e.(data := prims.unpackNxs3(e.data));
      }
      assert e == Unpacked(packed, prims);
      ghost var unpacked := e;
      if !detect.isBinary(e.data) {
        e := AddFlag(e, TextFlag);
      }
      var ext := detect.getExt(e.data, e.meta.dataFlags);
      e := e.(extension := ext, category := detect.category(ext));
      assert e == Classified(unpacked, detect);
      return Success(e);
    }

    /**
     * `read_entry`: a memo hit is returned as stored; an ordinal outside
     * the table gives the ERROR placeholder, which is not stored; any
     * other ordinal is resolved from the data file and stored, failed
     * entries included. A failed decryption stores nothing.
     */
    method ReadEntry(index: int) returns (r: Result<Entry, LoadError>)
      requires Valid()
      modifies this
      ensures Valid() && indices == old(indices)
      ensures r == if 0 <= index < |indices| then Resolved(index) else Success(OutOfRangeEntry())
      ensures index in old(entries) ==> r == Success(old(entries)[index])
      ensures entries == if r.Success? && 0 <= index < |indices| then old(entries)[index := r.value] else old(entries)
      ensures opens == old(opens) + if index in old(entries) || !(0 <= index < |indices|) then 0 else 1
    {
      if index in entries {
        return Success(entries[index]);
      }
      if !(0 <= index < |indices|) {
        return Success(OutOfRangeEntry());
      }
      opens := opens + 1;
      var loaded := LoadEntryData(FromIndex(indices[index]));
      if loaded.Failure? {
        return Failure(loaded.error);
      }
      var entry := loaded.value;
      if entry.extension != "" {
        entry := entry.(meta := entry.meta.(filename := entry.meta.filename + "." + entry.extension));
      }
      entries := entries[index := entry];
      return Success(entry);
    }

    /**
     * `extract_all`: every ordinal in ascending order is resolved and its
     * data written under `outputDir` with the entry's (suffixed) name,
     * failed entries included. A failed decryption stops the run at the
     * first record that fails; the files written before it stay written.
     */
    method ExtractAll(outputDir: string) returns (written: seq<Written>, err: Option<LoadError>)
      requires Valid()
      modifies this
      ensures Valid() && indices == old(indices)
      ensures forall k :: k in old(entries) ==> k in entries && entries[k] == old(entries)[k]
      ensures |written| <= |indices| && (err.None? <==> |written| == |indices|)
      ensures forall k :: 0 <= k < |written| ==>
        k in entries && Resolved(k) == Success(entries[k]) && written[k] == Saved(outputDir, entries[k])
      ensures err.Some? ==> Resolved(|written|) == Failure(err.value)
      ensures Extracted(written, err, indices, wpkData, options.decryptionKey, prims, detect, outputDir)
    {
      written := [];
      var i := 0;
      while i < |indices|
        invariant 0 <= i <= |indices|
        invariant Valid() && indices == old(indices)
        invariant forall k :: k in old(entries) ==> k in entries && entries[k] == old(entries)[k]
        invariant |written| == i
        invariant forall k :: 0 <= k < i ==> k in entries && written[k] == Saved(outputDir, entries[k])
      {
        var entry := ReadEntry(i);
        if entry.Failure? {
          ExtractedFromResolved(written, Some(entry.error), outputDir);
          return written, Some(entry.error);
        }
        written := written + [Saved(outputDir, entry.value)];
        i := i + 1;
      }
      err := None;
      ExtractedFromResolved(written, err, outputDir);
    }

    /** The run stated record by record through the memo is the run `Extracted` describes. */
    lemma ExtractedFromResolved(written: seq<Written>, err: Option<LoadError>, outputDir: string)
      requires |written| <= |indices| && (err.None? <==> |written| == |indices|)
      requires forall k :: 0 <= k < |written| ==>
        k in entries && Resolved(k) == Success(entries[k]) && written[k] == Saved(outputDir, entries[k])
      requires err.Some? ==> Resolved(|written|) == Failure(err.value)
      ensures Extracted(written, err, indices, wpkData, options.decryptionKey, prims, detect, outputDir)
    {
      forall k | 0 <= k < |written|
        ensures Resolve(indices[k], wpkData, options.decryptionKey, prims, detect) == Success(entries[k])
      {
        assert Resolved(k) == Success(entries[k]);
      }
    }
  }

  /** `Extracted` leaves no choice: the files written and the error are determined by the table. */
  lemma ExtractedIsDetermined(written: seq<Written>, err: Option<LoadError>, written': seq<Written>, err': Option<LoadError>,
                              idxs: seq<Index>, wpkData: Bytes, key: Option<int>, prims: Primitives, det: Detector, outputDir: string)
    requires Extracted(written, err, idxs, wpkData, key, prims, det, outputDir)
    requires Extracted(written', err', idxs, wpkData, key, prims, det, outputDir)
    ensures written == written' && err == err'
  {
  }

  /** Nothing read so far leaves the rest of the table as it is. */
  lemma PrependNothing(rest: Result<(seq<Index>, nat), ParseError>)
    ensures Prepend([], rest) == rest
  {
    if rest.Success? {
      assert [] + rest.value.0 == rest.value.0;
    }
  }

  /** The records read so far, then one more, in front of the rest of the table. */
  lemma PrependTwice(done: seq<Index>, next: seq<Index>, rest: Result<(seq<Index>, nat), ParseError>)
    ensures Prepend(done, Prepend(next, rest)) == Prepend(done + next, rest)
  {
    if rest.Success? {
      assert done + (next + rest.value.0) == (done + next) + rest.value.0;
    }
  }

  // ---------------------------------------------------------------- lemmas

  /** The memo only holds ordinals of the table: an ordinal outside it is never loaded. */
  lemma OutOfRangeNeverLoaded(f: WPKFile, index: int)
    requires f.Valid() && !(0 <= index < |f.indices|)
    ensures !f.IsEntryLoaded(index)
  {
  }

  /**
   * A failed decompression of a freshly read record sets exactly one of
   * ENCRYPTED and ERROR, by the key; no later step runs, so there is no
   * ROTOR, NXS3 or TEXT bit, no extension and no suffix, and the data is
   * what was handed to the decompressor.
   */
  lemma DecompressFailure(idx: Index, wpkData: Bytes, key: Option<int>, prims: Primitives, det: Detector)
    requires idx.dataFlags == NoFlags && idx.zipFlag != NoneTag
    requires Decrypted(Fetched(FromIndex(idx), wpkData), key, prims).Success?
    requires prims.decompress(Decrypted(Fetched(FromIndex(idx), wpkData), key, prims).value).None?
    ensures var r := Resolve(idx, wpkData, key, prims, det);
      && r.Success?
      && (HasFlag(r.value.meta.dataFlags, EncryptedFlag) <==> key.Some? && key.value != 0)
      && (HasFlag(r.value.meta.dataFlags, ErrorFlag) <==> !(key.Some? && key.value != 0))
      && !HasFlag(r.value.meta.dataFlags, TextFlag)
      && !HasFlag(r.value.meta.dataFlags, RotorPackedFlag)
      && !HasFlag(r.value.meta.dataFlags, Nxs3PackedFlag)
      && r.value.extension == "" && r.value.category == Other
      && r.value.meta.filename == idx.filename
      && r.value.data == Decrypted(Fetched(FromIndex(idx), wpkData), key, prims).value.data
  {
    var bit := FailureFlag(key);
    FlagsAreDistinctBits(bit, EncryptedFlag);
    FlagsAreDistinctBits(bit, ErrorFlag);
    FlagsAreDistinctBits(TextFlag, TextFlag);
    FlagsAreDistinctBits(RotorPackedFlag, RotorPackedFlag);
    FlagsAreDistinctBits(Nxs3PackedFlag, Nxs3PackedFlag);
  }

  /**
   * A successful load of a freshly read record: TEXT exactly when the
   * final data is not binary, the extension that `get_ext` gives for the
   * final data and flags (never empty), its category, the suffixed name,
   * and neither failure flag.
   */
  lemma LoadSuccess(idx: Index, wpkData: Bytes, key: Option<int>, prims: Primitives)
    requires idx.dataFlags == NoFlags
    requires Decrypted(Fetched(FromIndex(idx), wpkData), key, prims).Success?
    requires idx.zipFlag != NoneTag ==>
      prims.decompress(Decrypted(Fetched(FromIndex(idx), wpkData), key, prims).value).Some?
    ensures var r := Resolve(idx, wpkData, key, prims, Detection);
      && r.Success?
      && (HasFlag(r.value.meta.dataFlags, TextFlag) <==> !IsBinary(r.value.data))
      && r.value.extension == GetExt(r.value.data, r.value.meta.dataFlags) && r.value.extension != ""
      && r.value.category == FileCategory(r.value.extension)
      && r.value.meta.filename == idx.filename + "." + r.value.extension
      && !HasFlag(r.value.meta.dataFlags, ErrorFlag) && !HasFlag(r.value.meta.dataFlags, EncryptedFlag)
  {
    var dec := Decrypted(Fetched(FromIndex(idx), wpkData), key, prims).value;
    var d := if idx.zipFlag == NoneTag then dec else dec.(data := prims.decompress(dec).value);
    UnpackedFlags(d, prims);
    FlagsAreDistinctBits(TextFlag, TextFlag);
    FlagsAreDistinctBits(ErrorFlag, ErrorFlag);
    FlagsAreDistinctBits(EncryptedFlag, EncryptedFlag);
  }

  /**
   * The unpack steps add only their own flags, each exactly when its check
   * held: ROTOR_PACKED when the rotor check holds of the entry, NXS3_PACKED
   * when the nxs3 check holds of the entry after the rotor step. The data
   * is unpacked by each step whose check held, rotor first.
   */
  lemma UnpackedFlags(e: Entry, prims: Primitives)
    ensures var r := Unpacked(e, prims);
      && r.meta.filename == e.meta.filename && r.extension == e.extension
      && (HasFlag(r.meta.dataFlags, RotorPackedFlag) <==> HasFlag(e.meta.dataFlags, RotorPackedFlag) || prims.checkRotor(e))
      && forall bit :: IsFlag(bit) && bit != RotorPackedFlag && bit != Nxs3PackedFlag ==>
           (HasFlag(r.meta.dataFlags, bit) <==> HasFlag(e.meta.dataFlags, bit))
    ensures var mid := if prims.checkRotor(e) then AddFlag(e, RotorPackedFlag).(data := prims.unpackRotor(e.data)) else e;
      var r := Unpacked(e, prims);
      && (HasFlag(r.meta.dataFlags, Nxs3PackedFlag) <==> HasFlag(mid.meta.dataFlags, Nxs3PackedFlag) || prims.checkNxs3(mid))
      && r.data == if prims.checkNxs3(mid) then prims.unpackNxs3(mid.data) else mid.data
  {
    FlagsAreDistinctBits(Nxs3PackedFlag, Nxs3PackedFlag);
  }

  /**
   * Without encryption, compression or packing, an entry's data is the
   * raw payload: `file_length` bytes from `file_offset`, cut at the end of
   * the data file.
   */
  lemma PlainEntryKeepsPayload(idx: Index, wpkData: Bytes, key: Option<int>, prims: Primitives, det: Detector)
    requires idx.zipFlag == NoneTag && idx.encryptFlag == NoneTag
    requires !prims.checkRotor(Fetched(FromIndex(idx), wpkData))
    requires !prims.checkNxs3(Fetched(FromIndex(idx), wpkData))
    ensures Resolve(idx, wpkData, key, prims, det).Success?
    ensures Resolve(idx, wpkData, key, prims, det).value.data == RawPayload(wpkData, idx)
  {
  }

  /** Only a failed decryption, and only for an encrypted record, makes resolution fail. */
  lemma ResolveFailsOnlyOnDecrypt(idx: Index, wpkData: Bytes, key: Option<int>, prims: Primitives, det: Detector)
    ensures Resolve(idx, wpkData, key, prims, det).Failure? <==>
      idx.encryptFlag != NoneTag && prims.decrypt(Fetched(FromIndex(idx), wpkData), key).None?
  {
  }
}
