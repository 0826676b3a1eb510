/**
 * The row filter of gui/archive_entry_filter.py: every row of the list is
 * resolved and hidden or shown by its kind (text or binary), its name and
 * its category.
 */
module EntryFilter {
  import opened Wrappers
  import opened Bytes
  import opened DataFlags
  import opened EntryTypes
  import opened ContentDetection
  import opened IndexParser
  import opened WpkArchive
  import opened FileModel

  /** The filter's settings: the name filter, the category, the two kind boxes and the biped-head box. */
  datatype Settings = Settings(
    filterString: string,
    filterType: Option<Category>,
    includeText: bool,
    includeBinary: bool,
    meshBipedHead: bool)

  /** The row's kind is wanted: at least one box is ticked, and a single ticked box matches the TEXT flag. */
  predicate KindAllowed(s: Settings, flags: Flags) {
    && (s.includeText || s.includeBinary)
    && (s.includeText && !s.includeBinary ==> HasFlag(flags, TextFlag))
    && (s.includeBinary && !s.includeText ==> !HasFlag(flags, TextFlag))
  }

  /** An empty name filter accepts every name; otherwise it must occur in the lower-cased name. */
  predicate NameAllowed(s: Settings, nameLower: string) {
    s.filterString == "" || Contains(nameLower, s.filterString)
  }

  /**
   * No category chosen, or the entry's category; for meshes with the
   * biped-head box ticked, the data must also pass the biped-head search.
   */
  predicate CategoryAllowed(s: Settings, e: Entry, bipedHead: Bytes -> bool) {
    s.filterType.None?
    || (s.filterType.value == e.category && (e.category == Mesh && s.meshBipedHead ==> bipedHead(e.data)))
  }

  /** A row is shown exactly when all three tests accept it. */
  predicate RowShown(s: Settings, e: Entry, nameLower: string, bipedHead: Bytes -> bool) {
    KindAllowed(s, e.meta.dataFlags) && NameAllowed(s, nameLower) && CategoryAllowed(s, e, bipedHead)
  }

  /**
   * The verdict `apply_filter` hands to `setRowHidden` for one row, in the
   * order of its tests: both kind boxes clear, then a single box that the
   * TEXT flag contradicts, then the name filter, then the category.
   */
  function Hidden(s: Settings, e: Entry, nameLower: string, bipedHead: Bytes -> bool): (hidden: bool)
    ensures hidden <==> !RowShown(s, e, nameLower, bipedHead)
  {
    var text := HasFlag(e.meta.dataFlags, TextFlag);
    if !s.includeText && !s.includeBinary then true
    else if s.includeText != s.includeBinary && ((s.includeText && !text) || (s.includeBinary && text)) then true
    else if s.filterString != "" && !Contains(nameLower, s.filterString) then true
    else
      var show :=
        if s.filterType.None? then true
        else if s.filterType.value == e.category then
          (if s.filterType.value == Mesh then !s.meshBipedHead || bipedHead(e.data) else true)
        else false;
      !show
  }

  /** The entry `read_entry(row)` has handed back for a row once the row has been read. */
  function EntryAt(archive: WPKFile, row: nat): Entry
    reads archive
    requires row < |archive.indices| ==> row in archive.entries
  {
    if row < |archive.indices| then archive.entries[row] else OutOfRangeEntry()
  }

  /**
   * The name cache after rows `0..upto` were named through `get_filename`
   * without invalidation, starting from `before`: those rows hold their
   * cached name or, when there was none, the record's name; every other
   * key is as it was.
   */
  ghost predicate NamedUpTo(after: map<int, string>, before: map<int, string>, indices: seq<Index>, upto: nat)
    requires upto <= |indices|
  {
    && (forall k :: k in after <==> k in before || 0 <= k < upto)
    && (forall k :: 0 <= k < upto ==> after[k] == CachedName(before, indices, k))
    && (forall k :: k in before && !(0 <= k < upto) ==> after[k] == before[k])
  }

  /** The name cache after `get_filename` named rows `0..upto` in order, starting from `before`. */
  function NamesAfter(before: map<int, string>, indices: seq<Index>, upto: nat): map<int, string>
    requires upto <= |indices|
  {
    if upto == 0 then before
    else
      var prev := NamesAfter(before, indices, upto - 1);
      prev[upto - 1 := CachedName(prev, indices, upto - 1)]
  }

  /** Naming rows `0..upto` leaves every other key of the cache as it was. */
  lemma {:induction false} NamesAfterKeepsRest(before: map<int, string>, indices: seq<Index>, upto: nat, k: int)
    requires upto <= |indices| && !(0 <= k < upto)
    ensures k in NamesAfter(before, indices, upto) <==> k in before
    ensures k in before ==> NamesAfter(before, indices, upto)[k] == before[k]
  {
    if upto > 0 {
      NamesAfterKeepsRest(before, indices, upto - 1, k);
    }
  }

  /** Naming rows in order gives each of them its cached name or its record's name, and keeps every other key. */
  lemma {:induction false} NamesAfterIsNamedUpTo(before: map<int, string>, indices: seq<Index>, upto: nat)
    requires upto <= |indices|
    ensures NamedUpTo(NamesAfter(before, indices, upto), before, indices, upto)
  {
    if upto > 0 {
      NamesAfterIsNamedUpTo(before, indices, upto - 1);
      NamesAfterKeepsRest(before, indices, upto - 1, upto - 1);
    }
  }

  /** The list view: whether it is disabled, and the hidden state of each row. */
  class ListView {
    var disabled: bool
    const hidden: array<bool>

    constructor(rows: nat)
      ensures !disabled && hidden.Length == rows && fresh(hidden)
      ensures forall row :: 0 <= row < rows ==> !hidden[row]
    {
      disabled := false;
      hidden := new bool[rows](_ => false);
    }
  }

  class ArchiveEntryFilter {
    const listView: ListView
    var filterString: string
    var filterType: Option<Category>
    var includeText: bool
    var includeBinary: bool
    var meshBipedHead: bool

    /** No name filter, no category, both kinds, no biped-head test. */
    constructor(listView: ListView)
      ensures this.listView == listView
      ensures Current() == Settings("", None, true, true, false)
    {
      this.listView := listView;
      filterString := "";
      filterType := None;
      includeText := true;
      includeBinary := true;
      meshBipedHead := false;
    }

    function Current(): Settings
      reads this
    {
      Settings(filterString, filterType, includeText, includeBinary, meshBipedHead)
    }

    /** The row's entry through `read_entry`, its name through the model, and its verdict. */
    static method RowVerdict(m: WPKFileModel, a: WPKFile, row: nat, s: Settings, bipedHead: Bytes -> bool)
      returns (r: Result<bool, LoadError>)
      requires a.Valid() && row < m.RowCount()
      modifies a, m.cache
      ensures a.Valid() && a.indices == old(a.indices) && m.wpkFile.indices == old(m.wpkFile.indices)
      ensures forall k :: k in old(a.entries) ==> k in a.entries && a.entries[k] == old(a.entries)[k]
      ensures r.Success? ==>
        && (row < |a.indices| ==> row in a.entries)
        && m.cache.names == old(m.cache.names)[row := CachedName(old(m.cache.names), m.wpkFile.indices, row)]
        && r.value == Hidden(s, EntryAt(a, row), Lower(m.cache.names[row]), bipedHead)
      ensures r.Failure? ==> row < |a.indices| && a.Resolved(row) == Failure(r.error) && m.cache.names == old(m.cache.names)
    {
      var entry := a.ReadEntry(row);
      if entry.Failure? {
        return Failure(entry.error);
      }
      var name := m.GetFilename(m.IndexOf(row), false);
      return Success(Hidden(s, entry.value, Lower(name), bipedHead));
    }

    /**
     * One pass of the loop of `apply_filter`: the row's verdict handed to
     * `setRowHidden`. The rows before it keep their verdicts.
     */
    method FilterRow(m: WPKFileModel, a: WPKFile, row: nat, s: Settings, bipedHead: Bytes -> bool)
      returns (r: Result<(), LoadError>)
      requires a.Valid() && row < m.RowCount() == listView.hidden.Length
      modifies listView.hidden, a, m.cache
      ensures a.Valid() && a.indices == old(a.indices) && m.wpkFile.indices == old(m.wpkFile.indices)
      ensures forall k :: k in old(a.entries) ==> k in a.entries && a.entries[k] == old(a.entries)[k]
      ensures forall k :: 0 <= k < row ==>
        old((k < |a.indices| ==> k in a.entries) && k in m.cache.names
            && listView.hidden[k] == Hidden(s, EntryAt(a, k), Lower(m.cache.names[k]), bipedHead)) ==>
        && (k < |a.indices| ==> k in a.entries) && k in m.cache.names
        && listView.hidden[k] == Hidden(s, EntryAt(a, k), Lower(m.cache.names[k]), bipedHead)
      ensures r.Success? ==>
        && m.cache.names == old(m.cache.names)[row := CachedName(old(m.cache.names), m.wpkFile.indices, row)]
        && (row < |a.indices| ==> row in a.entries)
        && listView.hidden[row] == Hidden(s, EntryAt(a, row), Lower(m.cache.names[row]), bipedHead)
      ensures r.Failure? ==> row < |a.indices| && a.Resolved(row) == Failure(r.error) && m.cache.names == old(m.cache.names)
      ensures forall k :: 0 <= k < listView.hidden.Length && (r.Failure? || k != row) ==> listView.hidden[k] == old(listView.hidden[k])
    {
      var verdict := RowVerdict(m, a, row, s, bipedHead);
      if verdict.Failure? {
        return Failure(verdict.error);
      }
      listView.hidden[row] := verdict.value;
      return Success(());
    }

    /**
     * The loop of `apply_filter`: each row in turn is resolved, named
     * through the model, and given its verdict, until a failed decryption
     * stops it at row `upto` with the rows before it already set.
     */
    method FilterRows(m: WPKFileModel, a: WPKFile, bipedHead: Bytes -> bool)
      returns (r: Result<(), LoadError>, ghost upto: nat)
      requires a.Valid() && listView.hidden.Length == m.RowCount()
      modifies listView.hidden, a, m.cache
      ensures a.Valid() && a.indices == old(a.indices) && m.wpkFile.indices == old(m.wpkFile.indices)
      ensures forall k :: k in old(a.entries) ==> k in a.entries && a.entries[k] == old(a.entries)[k]
      ensures upto <= listView.hidden.Length && (r.Success? <==> upto == listView.hidden.Length)
      ensures r.Failure? ==> upto < |a.indices| && a.Resolved(upto) == Failure(r.error)
      ensures forall row :: 0 <= row < upto ==>
        && (row < |a.indices| ==> row in a.entries)
        && row in m.cache.names
        && listView.hidden[row] == Hidden(Current(), EntryAt(a, row), Lower(m.cache.names[row]), bipedHead)
      ensures forall row :: upto <= row < listView.hidden.Length ==> listView.hidden[row] == old(listView.hidden[row])
      ensures m.cache.names == NamesAfter(old(m.cache.names), m.wpkFile.indices, upto)
    {
      var s := Current();
      var row := 0;
      while row < m.RowCount()
        invariant 0 <= row <= m.RowCount() == listView.hidden.Length
        invariant a.Valid() && a.indices == old(a.indices)
        invariant m.wpkFile.indices == old(m.wpkFile.indices)
        invariant forall k :: k in old(a.entries) ==> k in a.entries && a.entries[k] == old(a.entries)[k]
        invariant forall k :: 0 <= k < row ==>
          && (k < |a.indices| ==> k in a.entries)
          && k in m.cache.names
          && listView.hidden[k] == Hidden(s, EntryAt(a, k), Lower(m.cache.names[k]), bipedHead)
        invariant forall k :: row <= k < listView.hidden.Length ==> listView.hidden[k] == old(listView.hidden[k])
        invariant m.cache.names == NamesAfter(old(m.cache.names), m.wpkFile.indices, row)
      {
        NamesAfterKeepsRest(old(m.cache.names), m.wpkFile.indices, row, row);
        var pass := FilterRow(m, a, row, s, bipedHead);
        if pass.Failure? {
          return Failure(pass.error), row;
        }
        row := row + 1;
      }
      return Success(()), row;
    }

    /**
     * `apply_filter`: nothing when the list is disabled or there is no
     * model or archive; otherwise the rows are filtered in turn. A failed
     * decryption stops the loop with the rows before it already set.
     */
    method ApplyFilter(model: WPKFileModel?, archive: WPKFile?, bipedHead: Bytes -> bool)
      returns (r: Result<(), LoadError>)
      requires archive != null ==> archive.Valid()
      requires model != null ==> listView.hidden.Length == model.RowCount()
      modifies listView.hidden, archive
      modifies if model != null then {model.cache} else {}
      ensures listView.disabled || model == null || archive == null ==>
        && r.Success? && unchanged(listView.hidden)
        && (model != null ==> model.cache.names == old(model.cache.names))
        && (archive != null ==> archive.entries == old(archive.entries))
      ensures archive != null ==> archive.Valid() && archive.indices == old(archive.indices)
      ensures model != null ==> model.wpkFile.indices == old(model.wpkFile.indices)
      ensures archive != null ==> forall k :: k in old(archive.entries) ==>
        k in archive.entries && archive.entries[k] == old(archive.entries)[k]
      ensures !listView.disabled && model != null && archive != null && r.Success? ==>
        && NamedUpTo(model.cache.names, old(model.cache.names), model.wpkFile.indices, listView.hidden.Length)
        && forall row :: 0 <= row < listView.hidden.Length ==>
             && (row < |archive.indices| ==> row in archive.entries)
             && listView.hidden[row] == Hidden(Current(), EntryAt(archive, row),
                  Lower(CachedName(old(model.cache.names), model.wpkFile.indices, row)), bipedHead)
      ensures r.Failure? ==>
        && !listView.disabled && model != null && archive != null
        && exists failed ::
             && 0 <= failed < |archive.indices| && failed < listView.hidden.Length
             && archive.Resolved(failed) == Failure(r.error)
             && NamedUpTo(model.cache.names, old(model.cache.names), model.wpkFile.indices, failed)
             && (forall row :: 0 <= row < failed ==>
                   && row in archive.entries
                   && listView.hidden[row] == Hidden(Current(), EntryAt(archive, row),
                        Lower(CachedName(old(model.cache.names), model.wpkFile.indices, row)), bipedHead))
             && (forall row :: failed <= row < listView.hidden.Length ==> listView.hidden[row] == old(listView.hidden[row]))
    {
      if listView.disabled || model == null || archive == null {
        return Success(());
      }
      ghost var failed;
      r, failed := FilterRows(model, archive, bipedHead);
      NamesAfterIsNamedUpTo(old(model.cache.names), model.wpkFile.indices, failed);
    }
  }

  // ---------------------------------------------------------------- lemmas

  /** Both kind boxes clear hides every row. */
  lemma NoKindHidesAll(s: Settings, e: Entry, nameLower: string, bipedHead: Bytes -> bool)
    requires !s.includeText && !s.includeBinary
    ensures Hidden(s, e, nameLower, bipedHead)
  {
  }

  /** A single ticked kind box shows only rows of that kind, whatever the other settings. */
  lemma SingleKindFilters(s: Settings, e: Entry, nameLower: string, bipedHead: Bytes -> bool)
    requires s.includeText != s.includeBinary
    ensures !Hidden(s, e, nameLower, bipedHead) ==> HasFlag(e.meta.dataFlags, TextFlag) == s.includeText
  {
  }

  /** An empty name filter never rejects: the verdict is the same for every name. */
  lemma EmptyNameFilterAcceptsAll(s: Settings, e: Entry, name1: string, name2: string, bipedHead: Bytes -> bool)
    requires s.filterString == ""
    ensures Hidden(s, e, name1, bipedHead) == Hidden(s, e, name2, bipedHead)
  {
  }

  /** A name filter that occurs in no part of the name hides the row. */
  lemma NameFilterRejects(s: Settings, e: Entry, nameLower: string, bipedHead: Bytes -> bool)
    requires s.filterString != "" && !Contains(nameLower, s.filterString)
    ensures Hidden(s, e, nameLower, bipedHead)
  {
  }

  /** With no category chosen and both kinds wanted, only the name filter decides. */
  lemma OnlyNameDecides(s: Settings, e: Entry, nameLower: string, bipedHead: Bytes -> bool)
    requires s.filterType.None? && s.includeText && s.includeBinary
    ensures Hidden(s, e, nameLower, bipedHead) <==> !NameAllowed(s, nameLower)
  {
  }

  /** A chosen category other than the entry's hides it. */
  lemma OtherCategoryHidden(s: Settings, e: Entry, nameLower: string, bipedHead: Bytes -> bool)
    requires s.filterType.Some? && s.filterType.value != e.category
    ensures Hidden(s, e, nameLower, bipedHead)
  {
  }

  /** The biped-head search is consulted only for meshes with its box ticked. */
  lemma BipedHeadOnlyForMeshes(s: Settings, e: Entry, nameLower: string, p: Bytes -> bool, q: Bytes -> bool)
    requires !(s.filterType == Some(Mesh) && s.meshBipedHead)
    ensures Hidden(s, e, nameLower, p) == Hidden(s, e, nameLower, q)
  {
  }

  /**
   * No entry is ever of the TEXT category: a resolved entry's category comes
   * from `FileCategory`, or stays OTHER when decompression fails, so
   * choosing TEXT in the filter hides every row the archive resolves.
   */
  lemma TextCategoryHidesResolved(s: Settings, idx: Index, wpkData: Bytes, key: Option<int>, prims: Primitives,
                                  nameLower: string, bipedHead: Bytes -> bool)
    requires s.filterType == Some(Text)
    requires Resolve(idx, wpkData, key, prims, Detection).Success?
    ensures Hidden(s, Resolve(idx, wpkData, key, prims, Detection).value, nameLower, bipedHead)
  {
  }

  /** An ordinal past the archive's table is shown only when binary entries and any category are wanted: the placeholder carries no TEXT bit. */
  lemma PlaceholderRow(s: Settings, nameLower: string, bipedHead: Bytes -> bool)
    ensures !Hidden(s, OutOfRangeEntry(), nameLower, bipedHead) ==>
      s.includeBinary && (s.filterType.None? || s.filterType == Some(Other))
  {
    FlagsAreDistinctBits(TextFlag, ErrorFlag);
  }
}
