/**
 * Container sniffing of core/detection.py: an IDX or WPK file is told
 * apart by a four-byte magic at its start.
 */
module FormatSniffer {
  import opened Wrappers
  import opened Bytes

  /** "IDX\0" */
  const IdxSignature: Bytes := [0x49, 0x44, 0x58, 0x00]

  /** "WPK\0" */
  const WpkSignature: Bytes := [0x57, 0x50, 0x4B, 0x00]

  /** How many bytes `detect_file_type` reads: the longer of the two signatures. */
  const HeaderLength: nat :=
    if |IdxSignature| >= |WpkSignature| then |IdxSignature| else |WpkSignature|

  predicate IsIdxSignature(data: Bytes) {
    |data| >= |IdxSignature| && IdxSignature <= data
  }

  predicate IsWpkSignature(data: Bytes) {
    |data| >= |WpkSignature| && WpkSignature <= data
  }

  /** The two answers `detect_file_type` can give besides None. */
  datatype FileKind = Idx | Wpk

  /**
   * `detect_file_type` on a file whose contents are `contents`: the
   * header is the first `HeaderLength` bytes, tested for IDX first.
   */
  function DetectFileType(contents: Bytes): (r: Option<FileKind>)
    ensures r == Some(Idx) <==> |contents| >= 4 && contents[..4] == IdxSignature
    ensures r == Some(Wpk) <==> |contents| >= 4 && contents[..4] == WpkSignature
    ensures |contents| < 4 ==> r == None
  {
    var header := Take(contents, HeaderLength);
    if IsIdxSignature(header) then Some(Idx)
    else if IsWpkSignature(header) then Some(Wpk)
    else None
  }

  /** No header carries both signatures: their first bytes differ. */
  lemma SignaturesExclusive(data: Bytes)
    ensures !(IsIdxSignature(data) && IsWpkSignature(data))
  {
    if IsIdxSignature(data) {
      assert data[0] == IdxSignature[0] != WpkSignature[0];
    }
  }

  /** Testing WPK before IDX would give the same answer. */
  lemma DetectOrderIrrelevant(contents: Bytes)
    ensures var header := Take(contents, HeaderLength);
      DetectFileType(contents) ==
        if IsWpkSignature(header) then Some(Wpk)
        else if IsIdxSignature(header) then Some(Idx)
        else None
  {
    SignaturesExclusive(Take(contents, HeaderLength));
  }

  /** Bytes past the header never change the answer. */
  lemma DetectReadsOnlyHeader(a: Bytes, b: Bytes)
    requires Take(a, HeaderLength) == Take(b, HeaderLength)
    ensures DetectFileType(a) == DetectFileType(b)
  {
  }
}
