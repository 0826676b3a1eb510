# NeoXtractor WPK/IDX reader: a Dafny model

NeoXtractor reads a two-file game-asset archive. The IDX file holds a table
of index records: name, offset, length, compression tag and encryption tag.
The WPK file holds the payload bytes of those records. This project models
the following parts of it:

- **the reader**: the `WPKFile` class of `core/wpk/wpk_file.py` and the
  records of `core/wpk/class_types.py`;
- **resolution**: a record's payload is cut from the data file, then
  decrypted, decompressed, unpacked (rotor, then NXS3) and classified. Each
  resolved entry is memoised;
- **content classification**: `is_binary`, `get_ext` and `get_file_category`
  of `core/npk/detection.py`;
- **the header sniffer** of `core/detection.py`;
- **the `wpk` subcommand** of `core/args.py`, which pairs the two paths and
  extracts everything;
- **the GUI list model** of `gui/models/wpk_file_model.py`;
- **the row filter** of `gui/archive_entry_filter.py`.

Modules, one per file:

- `Wrappers`: Option and Result.
- `Bytes`: bytes, Python slices, the little-endian `read_uint16` and
  `read_uint32`.
- `Utf8`: strict UTF-8 decoding as RFC 3629 defines it.
- `DataFlags`: the `WPKEntryDataFlags` bits.
- `EntryTypes`: `WPKReadOptions`, `WPKIndex` and `WPKEntry`.
- `ContentDetection`: the two signature tables, the binary test and the
  categories.
- `FormatSniffer`: `detect_file_type`.
- `Paths`: `os.path.splitext` and `os.path.join`.
- `IndexParser`: the IDX layout as a pure function, with its round trip.
- `WpkArchive`: the `WPKFile` class and the resolution pipeline.
- `CommandLine`: the path pairing of `core/args.py` and the `wpk`
  subcommand run end to end (`RunWpk`).
- `FileModel`: `WPKFileModel` and its shared name cache.
- `EntryFilter`: `ArchiveEntryFilter` and the list view's hidden rows.

The archive is a class. Its `indices` table and `entries` memo are fields
that `ReadIndices`, `ReadEntry` and `ExtractAll` update. Each method is
proved against the pure pipeline `Resolve`. The invariant `Valid` says that
every memo entry is what resolving its record gives. The GUI model and the
filter are classes over the same archive object, so their `modifies`
clauses show which calls touch the memo and which touch the name cache.

Two behaviours of the code are easy to miss:

- **Failed decryption.** `_load_entry_data` calls `decrypt_entry` outside
  any `try` (`core/wpk/wpk_file.py:105-106`). A failed decryption therefore
  aborts `read_entry` and stores nothing; it is not recorded as a flag on
  the entry. The model returns `Failure(DecryptFailed)`. Only a failed
  decompression sets ENCRYPTED or ERROR.
- **Short payload read.** A payload read past the end of the data file is
  not fatal. `file.read(file_length)` returns whatever bytes remain
  (`core/wpk/wpk_file.py:102-103`), and `RawPayload` cuts the slice short in
  the same way.

## Model

| member | source | states |
|---|---|---|
| Bytes.Slice | core/npk/detection.py:28-116 | A Python byte slice never fails: it is no longer than its input, and it equals the exact sub-sequence when the bounds are in range |
| Bytes.ReadU16 | core/wpk/wpk_file.py:65-67 | `read_uint16` succeeds exactly when two bytes remain, gives a value below 2^16, and fails at the position it started from |
| Bytes.ReadU32 | core/wpk/wpk_file.py:59-64 | `read_uint32` succeeds exactly when four bytes remain, gives a value below 2^32, and fails at its start position |
| Bytes.U16RoundTrip | core/wpk/wpk_file.py:65-67 | A u16 stored little-endian at a position is read back, and whatever is read there is stored there (both directions) |
| Bytes.U32RoundTrip | core/wpk/wpk_file.py:59-64 | The same round trip for u32 fields |
| Utf8.Decode | core/wpk/wpk_file.py:68 | Strict `decode("utf-8")` succeeds exactly when the bytes are well-formed UTF-8 |
| Utf8.DecodeRange | core/npk/detection.py:20-23 | Decoding a window of the data succeeds exactly when that window is well-formed |
| Utf8.DecodeEncode | core/wpk/wpk_file.py:68 | Every string's UTF-8 encoding decodes strictly back to that string |
| Utf8.EncodeDecode | core/wpk/wpk_file.py:68 | Conversely, bytes that decode strictly are the UTF-8 encoding of the decoded string, so decoding and encoding are inverse bijections |
| Utf8.EncodeDecodeRange | core/npk/detection.py:20-23 | Encoding the text that a well-formed window decodes to gives back exactly the bytes of that window |
| Utf8.EncodeDecodeChar | core/npk/detection.py:20-23 | Encoding one decoded character gives back the one to four bytes it was decoded from |
| Utf8.DecodeWindow | core/npk/detection.py:21 | Decoding reads only its window: two windows with the same bytes decode alike |
| Utf8.CutCharacter | core/npk/detection.py:21-23 | A window that ends inside a multi-byte character is not well-formed |
| Utf8.SevenBitWellFormed | core/npk/detection.py:20-24 | Seven-bit data is well-formed UTF-8 in every window |
| Utf8.WellFormedCancel | core/npk/detection.py:21 | If a well-formed window has a well-formed prefix, the rest of it is also well-formed |
| DataFlags.WithFlag | core/wpk/class_types.py:14-22 | `flags \|= bit` sets that bit and leaves every other named flag as it was |
| DataFlags.FlagsAreDistinctBits | core/wpk/class_types.py:14-22 | The `auto()` members are single, pairwise disjoint bits, and NONE has none of them |
| EntryTypes.FromIndex | core/wpk/wpk_file.py:81-89 | The entry built from a record is a fresh entry whose index fields are the record's |
| EntryTypes.FreshEntryDefaults | core/wpk/class_types.py:34-68 | A fresh entry has empty data, name and extension, zero offsets, lengths and CRCs, no structure, no tag, category OTHER and no flag |
| EntryTypes.FromIndexAccessors | core/wpk/class_types.py:70-82 | `is_compressed` and `is_encrypted` hold exactly when the record's tag is not NONE, and `get_data` of a fresh entry is empty |
| ContentDetection.GetExt | core/npk/detection.py:239-262 | The extension is never empty, and it is "empty" exactly for empty data. Otherwise the TEXT flag picks the text table, and its absence the binary table. The chosen table's answer is the extension, and "dat" appears exactly when that table finds nothing |
| ContentDetection.IsBinary | core/npk/detection.py:7-24 | Data is binary exactly when one of its first 4000 bytes is NUL or its first 2048 bytes are not well-formed UTF-8 |
| ContentDetection.BinaryExt | core/npk/detection.py:26-36 | Any extension the binary table gives is non-empty and is neither "dat" nor "empty" |
| ContentDetection.BinaryExtAfterRiff | core/npk/detection.py:37-57 | The same for the rules from RAWANIMA to CocosStudio-UI |
| ContentDetection.BinaryExtAfterCoc | core/npk/detection.py:58-71 | The same for the rules from the ASTC magic to NFXO |
| ContentDetection.BinaryExtAfterNfx | core/npk/detection.py:72-119 | The same for the rules from the C1 59 41 0D group to the animation marker |
| ContentDetection.TextExt | core/npk/detection.py:121-128 | Any extension the text table gives is non-empty and is neither "dat" nor "empty" |
| ContentDetection.MarkupExt | core/npk/detection.py:129-154 | The same for the substring rules from '<Material' to 'DisableBakeLightProbe=' |
| ContentDetection.MarkupExtFromScene | core/npk/detection.py:155-196 | The same for the rules from '<Scene' to the audio rule |
| ContentDetection.MarkupExtFromReferenceSkeleton | core/npk/detection.py:197-237 | The same for the rules from '"ReferenceSkeleton' to '?xml' |
| ContentDetection.FileCategory | core/npk/detection.py:264-287 | TEXTURE exactly for the lower-cased texture extensions, MESH exactly for "mesh", BANK exactly for "bnk"; never TEXT |
| ContentDetection.Lower | core/npk/detection.py:273 | Lower-casing keeps the length and maps each character on its own |
| ContentDetection.NulMeansBinary | core/npk/detection.py:17-18 | A NUL byte among the first 4000 makes the data binary |
| ContentDetection.IsBinaryReadsPrefix | core/npk/detection.py:7-24 | `is_binary` depends only on the first 4000 bytes |
| ContentDetection.SevenBitTextIsNotBinary | core/npk/detection.py:7-24 | Seven-bit data without NUL bytes, including empty data, is not binary |
| ContentDetection.CutCharacterIsBinary | core/npk/detection.py:20-23 | Data whose 2048-byte sample cuts a multi-byte character in two is judged binary, even when it is valid UTF-8 as a whole |
| ContentDetection.GetExtReadsOnlyTextBit | core/npk/detection.py:252-260 | Only the TEXT bit of the flags affects the extension |
| ContentDetection.CocAndSlpbNeverMatch | core/npk/detection.py:56-57 | The 'coc' rule compares 12 bytes with a 14-byte literal, and the 'slpb' rule compares 4 bytes with 5. Neither can match |
| ContentDetection.MeshSignature | core/npk/detection.py:28-31 | Data that starts with the 34 80 C8 BB magic gets the 'mesh' extension from the binary table |
| ContentDetection.MeshMagicIsMesh | core/npk/detection.py:239-287 | Non-empty binary data with the mesh magic gets the extension "mesh" and the category MESH |
| ContentDetection.RiffFallsThrough | core/npk/detection.py:32-36 | A RIFF header with neither FEV nor WAVE falls through to the rules after the RIFF group |
| ContentDetection.FileCategoryCaseInsensitive | core/npk/detection.py:264-287 | The category of an extension does not depend on its case |
| ContentDetection.PyiNeverMatches | core/npk/detection.py:123-124 | The 'pyi' rule compares 18 bytes with a 19-byte literal, so it never fires and the text table starts at the 'pem' rule |
| ContentDetection.PemOnlyForExactLiteral | core/npk/detection.py:125-126 | The 'pem' rule fires exactly when the whole data is the 26-byte literal |
| ContentDetection.HasPrefixOf | core/npk/detection.py:129-132 | Data that contains a marker also contains every prefix of that marker |
| ContentDetection.MtgShadowed | core/npk/detection.py:129-132 | Data that contains '<MaterialGroup' is classified 'mtl': the 'mtg' rule is never reached |
| ContentDetection.ScnexShadowed | core/npk/detection.py:155-186 | Data that contains '<SceneConfig' is classified 'scn': the 'scnex' rule is never reached |
| ContentDetection.MirrortableShadowed | core/npk/detection.py:197-204 | Data that contains '"ReferenceSkeletonPath"' is classified 'featureschema': the 'mirrortable' rule is never reached |
| FormatSniffer.DetectFileType | core/detection.py:40-57 | "idx" exactly when the first four bytes are IDX\0; "wpk" exactly when they are WPK\0; None for a file shorter than four bytes |
| FormatSniffer.SignaturesExclusive | core/detection.py:12-38 | No header carries both signatures |
| FormatSniffer.DetectOrderIrrelevant | core/detection.py:53-57 | Testing the WPK signature before the IDX signature gives the same answer |
| FormatSniffer.DetectReadsOnlyHeader | core/detection.py:50-52 | Bytes after the four-byte header never change the answer |
| Paths.LastIndexOf | core/wpk/wpk_file.py:40 | `rfind` gives -1 or a position that holds the character, with no later occurrence |
| Paths.SplitExt | core/wpk/wpk_file.py:40 | `splitext` splits the path into a root and an extension whose concatenation is the path; the extension is non-empty exactly when the last segment has a '.' after a non-dot character, and then the split falls at the last '.' |
| Paths.ExtensionShape | core/wpk/wpk_file.py:40 | The extension is empty, or starts with '.' and holds no '/' and no other '.' |
| Paths.RootKeepsDirectory | core/args.py:45-47 | The root keeps the path's directory part |
| Paths.RootOfReplacedExtension | core/args.py:45-47 | Replacing the extension with a simple one such as ".idx" keeps the root, and splitting again yields that extension |
| Paths.Join | core/wpk/wpk_file.py:142 | Joining a directory with an absolute name gives that name |
| Paths.JoinRelative | core/wpk/wpk_file.py:142 | Joining a relative name, such as an archive path with directories, gives a path that starts with the directory and ends with the name |
| Paths.JoinLastSegment | core/wpk/wpk_file.py:142 | A relative name without '/' joined to a directory is the last segment of the result |
| IndexParser.ReadTag | core/wpk/wpk_file.py:65-66 | A tag read succeeds exactly when two bytes remain, and its value is the u16 at that position |
| IndexParser.HeaderAt | core/wpk/wpk_file.py:60-67 | A header read succeeds only with its 18 bytes in the buffer, and both of its tags are known members |
| IndexParser.RecordAt | core/wpk/wpk_file.py:60-69 | A parsed record lies inside the buffer after its 18-byte header. Its CRCs are zero, it has no structure and no flags, and its tags are known members |
| IndexParser.Records | core/wpk/wpk_file.py:59-69 | A successful table read yields exactly `count` records |
| IndexParser.ParseIndexFile | core/wpk/wpk_file.py:57-69 | A file shorter than four bytes fails at offset 0; a parsed table holds exactly as many records as the leading count announces |
| IndexParser.NameAt | core/wpk/wpk_file.py:67-68 | The name read succeeds exactly when the possibly shortened name bytes are well-formed UTF-8, and it ends where the short read ends |
| IndexParser.HeaderRoundTrip | core/wpk/wpk_file.py:62-67 | A record header laid out at a position is parsed back field by field |
| IndexParser.RecordRoundTrip | core/wpk/wpk_file.py:60-69 | A record laid out at a position, with known tags, is parsed back exactly and ends where its layout ends |
| IndexParser.RecordRejectsUnknownTag | core/wpk/wpk_file.py:65-66 | A record with a tag outside the enumeration fails to parse |
| IndexParser.RecordsRoundTrip | core/wpk/wpk_file.py:60-69 | Records laid out one after another are all read back, in order |
| IndexParser.IndexFileRoundTrip | core/wpk/wpk_file.py:57-69 | An IDX file made of a count followed by that many laid-out records parses to exactly those records |
| IndexParser.RecordsRejectUnknownTag | core/wpk/wpk_file.py:60-69 | An unknown tag in any record fails the whole table read |
| IndexParser.UnknownTagAborts | core/wpk/wpk_file.py:48-49 | An unknown tag anywhere in the file makes opening the archive fail |
| IndexParser.TableFailsAt | core/wpk/wpk_file.py:60-69 | A failing record read fails the whole table, even when the records before it read back |
| WpkArchive.EffectiveWpkPath | core/wpk/wpk_file.py:40 | A non-empty data path is kept. Otherwise the path is the index root with the extension ".wpk" |
| WpkArchive.AddFlag | core/wpk/wpk_file.py:84 | Adding a flag changes only `data_flags`: that bit is set and every other flag keeps its value |
| WpkArchive.RawPayload | core/wpk/wpk_file.py:102-103 | The payload is at most `file_length` bytes. It is the exact slice when it fits in the data file, the rest of the file from the offset when the slice runs past the end, and empty when the offset is past the end |
| WpkArchive.Decrypted | core/wpk/wpk_file.py:105-106 | A record with no encryption tag is left as it is; a successful decryption changes only the data |
| WpkArchive.FailureFlag | core/wpk/wpk_file.py:111-120 | A failed decompression sets ENCRYPTED exactly when a non-zero key was given, and ERROR otherwise |
| WpkArchive.Unpacked | core/wpk/wpk_file.py:123-129 | The unpack steps change only the data and the flags; the index fields, extension and category are kept |
| WpkArchive.Classified | core/wpk/wpk_file.py:131-135 | Data and name are kept. TEXT is set exactly when it already was or the data is not binary, and no other flag changes. The extension is the one the data and final flags give, and the category follows from it |
| WpkArchive.LoadEntry | core/wpk/wpk_file.py:100-136 | Loading fails exactly when the record is encrypted and decrypting its raw payload fails; a loaded entry keeps the record's index fields except the flags |
| WpkArchive.Resolve | core/wpk/wpk_file.py:76-98 | A resolved entry keeps the record's index fields except the flags and the name, and its name is the record's name with the extension appended after a '.' when there is one |
| WpkArchive.WithSuffix | core/wpk/wpk_file.py:94-95 | A non-empty extension is appended to the name after a '.'; an empty extension leaves the entry unchanged; nothing but the name changes |
| WpkArchive.OutOfRangeEntry | core/wpk/wpk_file.py:81-85 | The placeholder is a fresh entry whose only flag is ERROR |
| WpkArchive.WPKFile.Init | core/wpk/wpk_file.py:32-44 | The data path is derived as in `__init__`, the options default to `WPKReadOptions()`, the table and the memo are empty, and the invariant holds |
| WpkArchive.WPKFile.ReadIndices | core/wpk/wpk_file.py:57-70 | The loop appends records one by one and succeeds exactly when the IDX parser does. The table becomes its result; on failure the error is the parser's error |
| WpkArchive.WPKFile.Open | core/wpk/wpk_file.py:32-49 | Opening succeeds exactly when the IDX contents parse. The new archive holds the parsed table, an empty memo, the derived paths and the options |
| WpkArchive.WPKFile.LoadEntryData | core/wpk/wpk_file.py:100-136 | The step-by-step update of the entry ends in the entry the pure pipeline gives, or in the decryption failure |
| WpkArchive.WPKFile.ReadEntry | core/wpk/wpk_file.py:76-98 | The result is the memo entry when one is stored, the resolution of the record for a table ordinal, and the ERROR placeholder otherwise. Only an in-range success is stored, and only an in-range miss opens the data file. The memo invariant is kept |
| WpkArchive.WPKFile.ExtractAll | core/wpk/wpk_file.py:138-143 | The files are written in table order, one per record, at `join(output_dir, name)` with the resolved data, and each of those records is now in the memo. The run stops at the first record whose resolution fails and returns that record's error; the files written before it are returned. With no failure every record is written. Earlier memo entries are kept |
| WpkArchive.ExtractedIsDetermined | core/wpk/wpk_file.py:138-143 | The table, the data and the key determine the files an extraction writes and its error: two runs over the same inputs agree |
| WpkArchive.OutOfRangeNeverLoaded | core/wpk/wpk_file.py:72-85 | An ordinal outside the table is never reported as loaded |
| WpkArchive.DecompressFailure | core/wpk/wpk_file.py:108-121 | A failed decompression sets exactly one of ENCRYPTED and ERROR, chosen by the key. It leaves no TEXT, ROTOR or NXS3 bit, no extension, category OTHER, an unsuffixed name, and the data handed to the decompressor |
| WpkArchive.LoadSuccess | core/wpk/wpk_file.py:123-135 | A fully loaded record has TEXT exactly when its final data is not binary, and neither ERROR nor ENCRYPTED. Its extension is `get_ext` of the final data and is never empty, its category follows from the extension, and its name carries the suffix |
| WpkArchive.UnpackedFlags | core/wpk/wpk_file.py:123-129 | The unpack steps add only ROTOR_PACKED and NXS3_PACKED: ROTOR_PACKED exactly when the rotor check holds of the entry, NXS3_PACKED exactly when the nxs3 check holds after the rotor step; the data is unpacked by each step whose check held, rotor first |
| WpkArchive.PlainEntryKeepsPayload | core/wpk/wpk_file.py:100-106 | A record with no encryption, no compression and no packing keeps its raw payload as its data |
| WpkArchive.ResolveFailsOnlyOnDecrypt | core/wpk/wpk_file.py:105-121 | Resolution fails exactly when the record is encrypted and decryption fails |
| WpkArchive.PrependTwice | core/wpk/wpk_file.py:60-69 | Records read so far, then one more, in front of the rest of the table, equal the longer prefix in front of that rest |
| CommandLine.Sniff | core/detection.py:50-52 | Sniffing fails exactly when there is no file at the path, and otherwise gives the header detection of its contents |
| CommandLine.PairPaths | core/args.py:39-49 | A pairing is one of four outcomes: the data file named first with its ".idx" sibling, an index alone with its ".wpk" sibling, the paths as given, or the paths swapped. In the swapped outcome the first path becomes the data path. An error names the first path, or a given second path |
| CommandLine.RunWpk | core/args.py:35-53 | The subcommand end to end. A pairing error or a missing index file is reported and nothing is written. A malformed index reports the parser's error. A missing data file is reported only when the index has records. Otherwise the files written are those of the parsed records resolved with the key, in order, up to the first failed record, whose error ends the run |
| CommandLine.KeyOnlySetsDecryptionKey | core/args.py:51 | The key sets only `decryption_key`; the other read options keep their defaults |
| CommandLine.DataFileFirst | core/args.py:42-45 | A first path that sniffs as WPK becomes the data path. Its root plus ".idx" becomes the index path, and any second path is dropped |
| CommandLine.IndexFileAlone | core/args.py:46-47 | An index given alone gets its root plus ".wpk" as the data path |
| CommandLine.SecondPathDecides | core/args.py:48-49 | Otherwise a non-empty second path that sniffs as IDX swaps the two paths, and any other second path leaves both as given |
| CommandLine.NeitherKindPassesThrough | core/args.py:39-49 | A first path of neither kind, with no usable second path, passes through unchanged |
| CommandLine.PairingErrors | core/args.py:42-48 | A missing first file is reported, and the only other error is a missing second file that was reached in the third test |
| CommandLine.PairingReadsOnlyHeaders | core/args.py:42-48 | Only the first four bytes of each file affect the pairing |
| CommandLine.DataPathRoundTrip | core/args.py:44-45 | For a ".wpk" path given first, the index path derived from it leads back to that data path |
| FileModel.NameCache.constructor | gui/models/wpk_file_model.py:13 | The shared name cache starts empty |
| FileModel.WPKFileModel.constructor | gui/models/wpk_file_model.py:15-24 | The model is bound to the archive and the shared cache |
| FileModel.DisplayText | gui/models/wpk_file_model.py:33-43 | The label starts with the name. It is the bare name before resolution, and gets " (Error)" when ERROR is set, otherwise " (Encrypted)" when ENCRYPTED is set. It differs from the name exactly when a failure flag is set |
| FileModel.Decoration | gui/models/wpk_file_model.py:44-53 | The loading icon exactly before resolution; the error icon exactly when ERROR is set; the encrypted icon exactly when ENCRYPTED is set without ERROR |
| FileModel.WPKFileModel.IndexOf | gui/models/wpk_file_model.py:26-27 | An index is valid exactly for the rows below `rowCount`, and its row is the requested one |
| FileModel.WPKFileModel.GetFilename | gui/models/wpk_file_model.py:58-67 | An invalid index gives "". A cached name is returned when no invalidation is asked. Otherwise the record's name is returned and cached, and the cache changes only at that row |
| FileModel.WPKFileModel.Data | gui/models/wpk_file_model.py:29-56 | The answer for each role: the label with its marker once the entry is resolved, the icon in the same precedence, or the index record. The archive's memo is never changed, and the cache changes only for an uncached display-role row |
| FileModel.RowCountIsRecordCount | gui/models/wpk_file_model.py:26-27 | The rows of a model over an opened archive are the records that the IDX file's count announces |
| FileModel.LabelMatchesIcon | gui/models/wpk_file_model.py:33-53 | The label is the name followed by the marker of the icon shown beside it |
| FileModel.ErrorOutranksEncrypted | gui/models/wpk_file_model.py:39-52 | With ERROR set, the label says "(Error)" and the icon is the error icon, whether or not ENCRYPTED is also set |
| FileModel.FileIconMeansNoFailure | gui/models/wpk_file_model.py:44-53 | The plain file icon is shown exactly for a resolved entry that has neither failure flag |
| FileModel.FailedEntryIcon | gui/models/wpk_file_model.py:44-53 | An entry whose decompression failed shows the encrypted icon exactly when a non-zero key was given |
| EntryFilter.Hidden | gui/archive_entry_filter.py:36-67 | The verdict, computed in the source's order of tests, hides a row exactly when the kind, name or category test rejects it |
| EntryFilter.ListView.constructor | gui/widgets/wpk_file_list.py:19-22 | A fresh list view is enabled and shows every row |
| EntryFilter.ArchiveEntryFilter.constructor | gui/archive_entry_filter.py:13-20 | No name filter, no category, both kinds wanted, no biped-head test |
| EntryFilter.ArchiveEntryFilter.RowVerdict | gui/archive_entry_filter.py:33-67 | The row is resolved through `read_entry`, its name is taken through the model, and its verdict is computed. The name is the cached name or, when there is none, the record's filename, and it is cached at that row only. A failure is the row's decryption failure and leaves the cache alone |
| EntryFilter.ArchiveEntryFilter.FilterRow | gui/archive_entry_filter.py:33-67 | One loop pass: the row's verdict is written to that row only, with the name cached as `RowVerdict` states. Rows whose verdicts were set keep them. A failure writes nothing |
| EntryFilter.ArchiveEntryFilter.FilterRows | gui/archive_entry_filter.py:32-67 | The rows are filtered in order up to the first failure. The rows before it carry their verdicts and the later rows keep their state. The cache is exactly the cache after naming those rows in order |
| EntryFilter.NamesAfterIsNamedUpTo | gui/models/wpk_file_model.py:58-67 | Naming rows in order through `get_filename` gives each of them its cached name or its record's name, and keeps every other key of the cache |
| EntryFilter.NamesAfterKeepsRest | gui/models/wpk_file_model.py:58-67 | Naming the first rows leaves every other key of the cache as it was |
| EntryFilter.ArchiveEntryFilter.ApplyFilter | gui/archive_entry_filter.py:22-67 | A disabled list or a missing model or archive changes nothing: not the hidden rows, the name cache or the memo. Otherwise every row's hidden state is the verdict for its resolved entry and the name `get_filename` gives it: the name cached before the call or, when there was none, the record's filename. Afterwards the cache holds exactly those names for the filtered rows and keeps every other key. On a failure, the rows before the failing row carry their verdicts, the failing row and every row after it keep their old state, and the error is that row's decryption failure. Memo entries are kept |
| EntryFilter.NoKindHidesAll | gui/archive_entry_filter.py:36-39 | With both kind boxes cleared every row is hidden |
| EntryFilter.SingleKindFilters | gui/archive_entry_filter.py:41-48 | With one kind box ticked, a shown row is of that kind |
| EntryFilter.EmptyNameFilterAcceptsAll | gui/archive_entry_filter.py:50-53 | An empty name filter makes the verdict independent of the name |
| EntryFilter.NameFilterRejects | gui/archive_entry_filter.py:50-53 | A name filter that does not occur in the lower-cased name hides the row |
| EntryFilter.OnlyNameDecides | gui/archive_entry_filter.py:36-64 | With both kinds wanted and no category, a row is hidden exactly when the name filter rejects it |
| EntryFilter.OtherCategoryHidden | gui/archive_entry_filter.py:55-64 | A chosen category other than the entry's hides the row |
| EntryFilter.BipedHeadOnlyForMeshes | gui/archive_entry_filter.py:58-60 | The biped-head search affects the verdict only when MESH is chosen and its box is ticked |
| EntryFilter.PlaceholderRow | gui/archive_entry_filter.py:33-64 | The ERROR placeholder of an out-of-range row is shown only when binary entries are wanted and no category, or OTHER, is chosen |
| EntryFilter.TextCategoryHidesResolved | gui/archive_entry_filter.py:55-64 | No resolved entry is of category TEXT, so choosing TEXT in the category box hides every resolved row |

## Left out

- Decryption, decompression, the rotor and NXS3 checks and both unpackers
  live in `core/npk/decryption.py` and `core/npk/decompression.py`. Those
  files are not part of this model. They are uninterpreted function values
  of `Primitives`. `decrypt` and `decompress` may fail; the unpackers are
  total.
- `CompressionType` and `DecryptionType` live in `core/npk/enums.py`, which
  is not part of this model. Their members are an abstract `TagSets`
  parameter, with NONE as 0.
- `read_uint16` and `read_uint32` live in `core/binary_readers.py`, which is
  not part of this model. They are taken to be little-endian and to raise
  on a short read.
- File I/O:
  - The IDX file's contents and the data file's contents are given as
    bytes. The data file is fixed while the archive is open.
  - `WPKFile` is given the data file's contents, so `ReadEntry` and the
    GUI never see a missing data file. `RunWpk` reports a missing data file
    before extracting when the index has records, which is where Python's
    first `read_entry` raises. Each open is counted in the ghost field
    `opens`.
  - `save_to_file` is recorded as a `Written(path, data)` list, without
    `os.makedirs`.
- Logging (`get_logger`) is not modelled; it has no effect on results.
- The entries are values, not shared objects. The entry `read_entry`
  returns is a copy of the memo entry, so aliasing between the two is not
  captured.
- The classifier is a `Detector` value held by the archive. The
  constructor sets it to `Detection`: `is_binary`, `get_ext` and
  `get_file_category`.
- WpkArchive.WPKFile.ReadIndices: on failure the contract does not say
  which records were already appended to `indices`. Python leaves a
  partial table, but the constructor raises, so that table is never seen.
- ContentDetection.MeshSignature: states only that the magic gives 'mesh'.
  The converse is not stated.
- ContentDetection.Lower: lower-cases only ASCII letters. `str.lower()` on
  other characters is not modelled.
- The signature tables are modelled rule by rule. The proved properties
  cover the shadowed rules, the rules that can never match, and the 'mesh',
  'pem' and RIFF rules. No lemma covers each of the remaining rules on its
  own.
- NPK archives and `get_npk_file` are not modelled. The filter takes the
  WPK archive, or null.
- `ransack_agent` (the biped-head search) lives in `gui/utils/npk.py`,
  which is not part of this model. It is a parameter of the filter.
- The argparse declarations, the `-o` default of "." and the `int(x, 0)`
  parsing of `--key` are library behaviour. `RunWpk` starts from the
  parsed values in a `WpkCommand`. Errors of `save_to_file` and
  `os.makedirs` are not modelled; writing always succeeds.
- Paths.SplitExt, Paths.Join and Paths.LastIndexOf model `posixpath`
  only. On Windows `os.path` is `ntpath`, which also splits at '\\' and
  handles drive letters. That behaviour is not modelled.
- `Category` has the members TEXTURE, MESH, BANK, TEXT and OTHER. The
  other members of `NPKEntryFileCategories` and the display strings of all
  of them are defined in `core/npk/enums.py`, which is not part of this
  model. No extension maps to those other members, so choosing one in the
  filter hides every resolved row, as `TextCategoryHidesResolved` shows
  for TEXT.
- The Qt list view and its model index:
  - A Qt index is a `ModelIndex`: either invalid, or a row below
    `rowCount`.
  - Icons are the four `Icon` values; the widget style is not modelled.
  - `setRowHidden` writes the `hidden` array of `ListView`.
- `_file_names_cache` is a class attribute. Every model created over the
  same `NameCache` object shares it.
