/**
 * The `wpk` subcommand of core/args.py: pairing the index path with the
 * data path by sniffing the files, and the read options and output
 * directory handed to the archive reader.
 */
module CommandLine {
  import opened Wrappers
  import opened Bytes
  import opened Paths
  import opened FormatSniffer
  import opened EntryTypes
  import opened IndexParser
  import opened WpkArchive

  /** `open(path, "rb")` raised: there is no file at the path. */
  datatype OpenError = NotFound(path: string)

  /** The index path and the data path handed to `WPKFile`; a missing data path is derived there. */
  datatype Pairing = Pairing(idxPath: string, wpkPath: Option<string>)

  /** `detect_file_type(path)` over the files present, each given by its contents. */
  function Sniff(files: map<string, Bytes>, path: string): (r: Result<Option<FileKind>, OpenError>)
    ensures r.Failure? <==> path !in files
    ensures r.Success? ==> r.value == DetectFileType(files[path])
  {
    if path in files then Success(DetectFileType(files[path])) else Failure(NotFound(path))
  }

  /** A second path that Python treats as true: given and not empty. */
  predicate Given(p: Option<string>) {
    p.Some? && p.value != ""
  }

  /**
   * The pairing of core/args.py: the first path sniffed as a data file
   * names its index by extension; an index with no second path names its
   * data file likewise; otherwise a second path that sniffs as an index
   * swaps the two. The second path is opened only in that last test.
   */
  function PairPaths(path: string, wpkPath: Option<string>, files: map<string, Bytes>): (r: Result<Pairing, OpenError>)
    ensures r.Success? ==>
      || r.value == Pairing(Root(path) + ".idx", Some(path))
      || r.value == Pairing(path, Some(Root(path) + ".wpk"))
      || r.value == Pairing(path, wpkPath)
      || (Given(wpkPath) && r.value == Pairing(wpkPath.value, Some(path)))
    ensures r.Failure? ==> r.error == NotFound(path) || (Given(wpkPath) && r.error == NotFound(wpkPath.value))
  {
    var detected :- Sniff(files, path);
    if detected == Some(Wpk) then Success(Pairing(Root(path) + ".idx", Some(path)))
    else if detected == Some(Idx) && wpkPath.None? then Success(Pairing(path, Some(Root(path) + ".wpk")))
    else if Given(wpkPath) then
      var second :- Sniff(files, wpkPath.value);
      if second == Some(Idx) then Success(Pairing(wpkPath.value, Some(path)))
      else Success(Pairing(path, wpkPath))
    else Success(Pairing(path, wpkPath))
  }

  /** The arguments of the `wpk` subcommand once argparse has filled in its defaults. */
  datatype WpkCommand = WpkCommand(path: string, wpkPath: Option<string>, output: string, key: Option<int>)

  /** `WPKReadOptions(decryption_key=arguments.key)`. */
  function CommandOptions(c: WpkCommand): (o: ReadOptions) {
    ReadOptions(c.key, None, None)
  }

  /** Why the `wpk` subcommand stopped: a file it opens is missing, the index is malformed, or an entry failed. */
  datatype CommandError = Unopened(open: OpenError) | BadIndex(parse: ParseError) | BadEntry(load: LoadError)

  /**
   * The `wpk` subcommand after argument parsing: pair the paths, open the
   * archive with the key as its only option, and extract every entry into
   * the output directory. The index is read when the archive is opened;
   * the data file is opened by the first entry read, so a missing data
   * file stops the run only when the index has records. The files written
   * are those of the records resolved before the first failure.
   */
  method RunWpk(c: WpkCommand, files: map<string, Bytes>, tags: TagSets, prims: Primitives)
    returns (written: seq<Written>, err: Option<CommandError>)
    ensures PairPaths(c.path, c.wpkPath, files).Failure? ==>
      written == [] && err == Some(Unopened(PairPaths(c.path, c.wpkPath, files).error))
    ensures PairPaths(c.path, c.wpkPath, files).Success? ==>
      var p := PairPaths(c.path, c.wpkPath, files).value;
      var dataPath := EffectiveWpkPath(p.idxPath, p.wpkPath);
      && (p.idxPath !in files ==> written == [] && err == Some(Unopened(NotFound(p.idxPath))))
      && (p.idxPath in files && ParseIndexFile(files[p.idxPath], tags).Failure? ==>
            written == [] && err == Some(BadIndex(ParseIndexFile(files[p.idxPath], tags).error)))
      && (p.idxPath in files && ParseIndexFile(files[p.idxPath], tags).Success? ==>
            var idxs := ParseIndexFile(files[p.idxPath], tags).value;
            var wpkData := if dataPath in files then files[dataPath] else [];
            if dataPath !in files && |idxs| > 0 then
              written == [] && err == Some(Unopened(NotFound(dataPath)))
            else
              && (err.Some? ==> err.value.BadEntry?)
              && Extracted(written, if err.Some? then Some(err.value.load) else None,
                           idxs, wpkData, c.key, prims, Detection, c.output))
  {
    var paired := PairPaths(c.path, c.wpkPath, files);
    if paired.Failure? {
      return [], Some(Unopened(paired.error));
    }
    var p := paired.value;
    if p.idxPath !in files {
      return [], Some(Unopened(NotFound(p.idxPath)));
    }
    var dataPath := EffectiveWpkPath(p.idxPath, p.wpkPath);
    var wpkData := if dataPath in files then files[dataPath] else [];
    var archiveOpen := WPKFile.Open(p.idxPath, p.wpkPath, Some(CommandOptions(c)), files[p.idxPath], wpkData, tags, prims);
    if archiveOpen.Failure? {
      return [], Some(BadIndex(archiveOpen.error));
    }
    var archive := archiveOpen.value;
    if dataPath !in files && |archive.indices| > 0 {
      return [], Some(Unopened(NotFound(dataPath)));
    }
    var failed;
    written, failed := archive.ExtractAll(c.output);
    err := if failed.Some? then Some(BadEntry(failed.value)) else None;
  }

  // ---------------------------------------------------------------- lemmas

  /** The key sets only `decryption_key`; the other options keep their defaults. */
  lemma KeyOnlySetsDecryptionKey(c: WpkCommand)
    ensures CommandOptions(c).decryptionKey == c.key
    ensures CommandOptions(c).(decryptionKey := None) == DefaultReadOptions()
  {
  }

  /** A first path that sniffs as WPK is the data path; the index is its root plus ".idx"; any second path is dropped. */
  lemma DataFileFirst(path: string, wpkPath: Option<string>, files: map<string, Bytes>)
    requires path in files && IsWpkSignature(files[path])
    ensures PairPaths(path, wpkPath, files) == Success(Pairing(Root(path) + ".idx", Some(path)))
  {
    SignaturesExclusive(Take(files[path], HeaderLength));
  }

  /** A first path that sniffs as IDX, with no second path, gets the data path root plus ".wpk". */
  lemma IndexFileAlone(path: string, files: map<string, Bytes>)
    requires path in files && IsIdxSignature(files[path])
    ensures PairPaths(path, None, files) == Success(Pairing(path, Some(Root(path) + ".wpk")))
  {
  }

  /**
   * When the first path is not a data file, and is not an index given
   * alone, a non-empty second path that sniffs as IDX swaps the two;
   * any other second path leaves both as given.
   */
  lemma SecondPathDecides(path: string, wpkPath: Option<string>, files: map<string, Bytes>)
    requires path in files && !IsWpkSignature(Take(files[path], HeaderLength))
    requires !(IsIdxSignature(files[path]) && wpkPath.None?)
    requires Given(wpkPath) && wpkPath.value in files
    ensures IsIdxSignature(files[wpkPath.value]) ==>
      PairPaths(path, wpkPath, files) == Success(Pairing(wpkPath.value, Some(path)))
    ensures !IsIdxSignature(files[wpkPath.value]) ==>
      PairPaths(path, wpkPath, files) == Success(Pairing(path, wpkPath))
  {
  }

  /** With no usable second path and a first path of neither kind, both paths pass through. */
  lemma NeitherKindPassesThrough(path: string, wpkPath: Option<string>, files: map<string, Bytes>)
    requires path in files && DetectFileType(files[path]).None?
    requires !Given(wpkPath)
    ensures PairPaths(path, wpkPath, files) == Success(Pairing(path, wpkPath))
  {
  }

  /** Only the first path is opened unless the third test is reached, and a missing file is the only error. */
  lemma PairingErrors(path: string, wpkPath: Option<string>, files: map<string, Bytes>)
    ensures path !in files ==> PairPaths(path, wpkPath, files) == Failure(NotFound(path))
    ensures PairPaths(path, wpkPath, files).Failure? ==>
      path !in files || (Given(wpkPath) && PairPaths(path, wpkPath, files).error == NotFound(wpkPath.value))
  {
  }

  /** Only the first four bytes of each file are ever consulted. */
  lemma PairingReadsOnlyHeaders(path: string, wpkPath: Option<string>, files: map<string, Bytes>, other: map<string, Bytes>)
    requires files.Keys == other.Keys
    requires forall p :: p in files ==> Take(files[p], HeaderLength) == Take(other[p], HeaderLength)
    ensures PairPaths(path, wpkPath, files) == PairPaths(path, wpkPath, other)
  {
    if path in files {
      DetectReadsOnlyHeader(files[path], other[path]);
    }
    if Given(wpkPath) && wpkPath.value in files {
      DetectReadsOnlyHeader(files[wpkPath.value], other[wpkPath.value]);
    }
  }

  /**
   * Pairing then deriving is consistent: when the data file was named
   * first, the index named for it derives the same data path back inside
   * the reader.
   */
  lemma DataPathRoundTrip(path: string, files: map<string, Bytes>, wpkPath: Option<string>)
    requires path in files && IsWpkSignature(files[path])
    requires HasPlainStem(Root(path)) && SplitExt(path).1 == ".wpk"
    ensures var p := PairPaths(path, wpkPath, files).value;
      Root(p.idxPath) + ".wpk" == path
  {
    DataFileFirst(path, wpkPath, files);
    RootOfReplacedExtension(path, ".idx");
    assert Root(path) + SplitExt(path).1 == path;
  }
}
