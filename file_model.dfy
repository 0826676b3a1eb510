/**
 * The list model of gui/models/wpk_file_model.py: one row per index
 * record, labelled with the record's name and an icon that tell whether
 * its entry is resolved and how it fared, with a name cache that every
 * model shares.
 */
module FileModel {
  import opened Wrappers
  import opened Bytes
  import opened DataFlags
  import opened EntryTypes
  import opened IndexParser
  import opened WpkArchive

  /** A QModelIndex of this list: invalid, or a row. */
  datatype ModelIndex = Invalid | Row(row: nat)

  /** The item data roles `data` answers; every other role is `OtherRole`. */
  datatype Role = DisplayRole | DecorationRole | UserRole | OtherRole

  /** The four standard icons the model shows. */
  datatype Icon = LoadingIcon | ErroredIcon | EncryptedIcon | FileIcon

  /** What `data` returns: None, a label, an icon, or the index record itself. */
  datatype Cell = NoValue | Label(text: string) | Picture(icon: Icon) | Record(index: Index)

  /** The `_file_names_cache` class attribute: one map from row to name, shared by every model. */
  class NameCache {
    var names: map<int, string>

    constructor()
      ensures names == map[]
    {
      names := map[];
    }
  }

  /** The label of a row whose entry flags are known once it is resolved: ERROR first, then ENCRYPTED. */
  function DisplayText(name: string, resolved: Option<Flags>): (text: string)
    ensures name <= text
    ensures resolved.None? ==> text == name
    ensures resolved.Some? && HasFlag(resolved.value, ErrorFlag) ==> text == name + " (Error)"
    ensures resolved.Some? && !HasFlag(resolved.value, ErrorFlag) && HasFlag(resolved.value, EncryptedFlag) ==>
      text == name + " (Encrypted)"
    ensures text == name <==> resolved.None? || !(HasFlag(resolved.value, ErrorFlag) || HasFlag(resolved.value, EncryptedFlag))
  {
    if resolved.None? then name
    else if HasFlag(resolved.value, ErrorFlag) then name + " (Error)"
    else if HasFlag(resolved.value, EncryptedFlag) then name + " (Encrypted)"
    else name
  }

  /** The icon of a row, by the same precedence. */
  function Decoration(resolved: Option<Flags>): (icon: Icon)
    ensures icon == LoadingIcon <==> resolved.None?
    ensures icon == ErroredIcon <==> resolved.Some? && HasFlag(resolved.value, ErrorFlag)
    ensures icon == EncryptedIcon <==> resolved.Some? && !HasFlag(resolved.value, ErrorFlag) && HasFlag(resolved.value, EncryptedFlag)
  {
    if resolved.None? then LoadingIcon
    else if HasFlag(resolved.value, ErrorFlag) then ErroredIcon
    else if HasFlag(resolved.value, EncryptedFlag) then EncryptedIcon
    else FileIcon
  }

  /** The text a label adds to the name for an icon. */
  function Marker(icon: Icon): string {
    match icon
    case ErroredIcon => " (Error)"
    case EncryptedIcon => " (Encrypted)"
    case _ => ""
  }

  /** The name `get_filename` gives for a row with the cache as it stands and no invalidation. */
  function CachedName(names: map<int, string>, indices: seq<Index>, row: nat): string
    requires row !in names ==> row < |indices|
  {
    if row in names then names[row] else indices[row].filename
  }

  class WPKFileModel {
    const wpkFile: WPKFile
    const cache: NameCache

    constructor(wpkFile: WPKFile, cache: NameCache)
      ensures this.wpkFile == wpkFile && this.cache == cache
    {
      this.wpkFile := wpkFile;
      this.cache := cache;
    }

    /** `rowCount`. */
    function RowCount(): nat
      reads wpkFile
    {
      |wpkFile.indices|
    }

    /** `index(row)`: valid exactly for the rows of the list. */
    function IndexOf(row: int): (i: ModelIndex)
      reads wpkFile
      ensures i.Row? <==> 0 <= row < RowCount()
      ensures i.Row? ==> i.row == row
    {
      if 0 <= row < RowCount() then Row(row) else Invalid
    }

    /** The flags of a row's entry when it is resolved. */
    function Resolution(row: nat): Option<Flags>
      reads wpkFile
    {
      if row in wpkFile.entries then Some(wpkFile.entries[row].meta.dataFlags) else None
    }

    /**
     * `get_filename`: "" for an invalid index; the cached name unless the
     * cache is to be invalidated; otherwise the record's name from the
     * index table, which is then cached.
     */
    method GetFilename(index: ModelIndex, invalidate: bool) returns (name: string)
      requires index.Row? && (index.row !in cache.names || invalidate) ==> index.row < |wpkFile.indices|
      modifies cache
      ensures index.Invalid? ==> name == "" && cache.names == old(cache.names)
      ensures index.Row? && index.row in old(cache.names) && !invalidate ==>
        name == old(cache.names)[index.row] && cache.names == old(cache.names)
      ensures index.Row? && (index.row !in old(cache.names) || invalidate) ==>
        name == wpkFile.indices[index.row].filename && cache.names == old(cache.names)[index.row := name]
    {
      if index.Invalid? {
        return "";
      }
      if index.row in cache.names && !invalidate {
        return cache.names[index.row];
      }
      name := wpkFile.indices[index.row].filename;
      cache.names := cache.names[index.row := name];
    }

    /**
     * `data`: None for an invalid index; for the display role the name,
     * marked once the entry is resolved; for the decoration role the icon;
     * for the user role the index record. Only a resolved entry is read
     * back, so no entry is ever resolved here.
     */
    method Data(index: ModelIndex, role: Role) returns (c: Cell)
      requires wpkFile.Valid()
      requires index.Row? ==> index.row < |wpkFile.indices|
      modifies cache, wpkFile
      ensures wpkFile.Valid() && wpkFile.indices == old(wpkFile.indices)
      ensures wpkFile.entries == old(wpkFile.entries) && wpkFile.opens == old(wpkFile.opens)
      ensures index.Invalid? ==> c == NoValue
      ensures index.Row? && role == DisplayRole ==>
        c == Label(DisplayText(CachedName(old(cache.names), wpkFile.indices, index.row), Resolution(index.row)))
      ensures index.Row? && role == DecorationRole ==> c == Picture(Decoration(Resolution(index.row)))
      ensures index.Row? && role == UserRole ==> c == Record(wpkFile.indices[index.row])
      ensures index.Row? && role == OtherRole ==> c == NoValue
      ensures role == DisplayRole && index.Row? && index.row !in old(cache.names) ==>
        cache.names == old(cache.names)[index.row := wpkFile.indices[index.row].filename]
      ensures !(role == DisplayRole && index.Row? && index.row !in old(cache.names)) ==> cache.names == old(cache.names)
    {
      if index.Invalid? {
        return NoValue;
      }
      var row := index.row;
      if role == DisplayRole {
        var filename := GetFilename(index, false);
        if !wpkFile.IsEntryLoaded(row) {
          return Label(filename);
        }
        var entry := wpkFile.ReadEntry(row);
        var flags := entry.value.meta.dataFlags;
        if HasFlag(flags, ErrorFlag) {
          return Label(filename + " (Error)");
        }
        if HasFlag(flags, EncryptedFlag) {
          return Label(filename + " (Encrypted)");
        }
        return Label(filename);
      }
      if role == DecorationRole {
        if !wpkFile.IsEntryLoaded(row) {
          return Picture(LoadingIcon);
        }
        var entry := wpkFile.ReadEntry(row);
        var flags := entry.value.meta.dataFlags;
        if HasFlag(flags, ErrorFlag) {
          return Picture(ErroredIcon);
        }
        if HasFlag(flags, EncryptedFlag) {
          return Picture(EncryptedIcon);
        }
        return Picture(FileIcon);
      }
      if role == UserRole {
        return Record(wpkFile.indices[row]);
      }
      return NoValue;
    }
  }

  // ---------------------------------------------------------------- lemmas

  /** The rows of a model over a freshly opened archive are the records the index file counts. */
  lemma RowCountIsRecordCount(model: WPKFileModel, idxData: Bytes, tags: TagSets)
    requires ParseIndexFile(idxData, tags).Success?
    requires model.wpkFile.indices == ParseIndexFile(idxData, tags).value
    ensures ReadU32(idxData, 0).Success? && model.RowCount() == ReadU32(idxData, 0).value
  {
  }

  /** The label and the icon agree: the label is the name followed by the icon's marker. */
  lemma LabelMatchesIcon(name: string, resolved: Option<Flags>)
    ensures DisplayText(name, resolved) == name + Marker(Decoration(resolved))
  {
    if Decoration(resolved) == LoadingIcon || Decoration(resolved) == FileIcon {
      assert name + "" == name;
    }
  }

  /** ERROR outranks ENCRYPTED: with ERROR set, adding or removing ENCRYPTED changes neither label nor icon. */
  lemma ErrorOutranksEncrypted(name: string, flags: Flags)
    requires HasFlag(flags, ErrorFlag)
    ensures DisplayText(name, Some(flags)) == name + " (Error)"
    ensures Decoration(Some(flags)) == ErroredIcon
    ensures Decoration(Some(WithFlag(flags, EncryptedFlag))) == ErroredIcon
  {
    FlagsAreDistinctBits(ErrorFlag, EncryptedFlag);
  }

  /** The plain file icon means a resolved entry with neither failure flag. */
  lemma FileIconMeansNoFailure(resolved: Option<Flags>)
    ensures Decoration(resolved) == FileIcon <==>
      resolved.Some? && !HasFlag(resolved.value, ErrorFlag) && !HasFlag(resolved.value, EncryptedFlag)
  {
  }

  /**
   * A resolved entry that failed to decompress shows as encrypted exactly
   * when a non-zero key was given, and as an error otherwise.
   */
  lemma FailedEntryIcon(idx: Index, wpkData: Bytes, key: Option<int>, prims: Primitives, det: Detector)
    requires idx.dataFlags == NoFlags && idx.zipFlag != NoneTag
    requires Decrypted(Fetched(FromIndex(idx), wpkData), key, prims).Success?
    requires prims.decompress(Decrypted(Fetched(FromIndex(idx), wpkData), key, prims).value).None?
    ensures var e := Resolve(idx, wpkData, key, prims, det).value;
      Decoration(Some(e.meta.dataFlags)) == if key.Some? && key.value != 0 then EncryptedIcon else ErroredIcon
  {
    DecompressFailure(idx, wpkData, key, prims, det);
  }
}
