/**
 * Content classification of core/npk/detection.py: the binary/text
 * heuristic, the ordered first-match signature tables that pick an
 * extension, and the extension-to-category lookup.
 */
module ContentDetection {
  import opened Wrappers
  import opened Bytes
  import opened Utf8
  import opened DataFlags

  /**
   * The members of NPKEntryFileCategories the model knows: the four that
   * `FileCategory` produces, and TEXT, which a user can pick in the
   * category filter but which no extension maps to.
   */
  datatype Category = Texture | Mesh | Bank | Text | Other

  /** `lit in data` for an ASCII byte literal. */
  predicate Has(data: Bytes, lit: string) {
    Contains(data, Ascii(lit))
  }

  // ---------------------------------------------------------------- is_binary

  /** A NUL byte among the first 4000, or a first 2048 bytes that do not decode strictly. */
  function IsBinary(data: Bytes): (b: bool)
    ensures b <==> (exists i :: 0 <= i < |data| && i < 4000 && data[i] == 0) || !WellFormed(Take(data, 2048))
  {
    ContainsByte(Take(data, 4000), 0);
    Contains(Take(data, 4000), [0]) || !WellFormed(Take(data, 2048))
  }

  // ---------------------------------------------------------- _get_binary_ext

  /**
   * `_get_binary_ext`: the binary signature checks, first match in source
   * order, None when nothing matches. The single chain of the source is
   * written as four consecutive runs, each ending in the next.
   */
  function BinaryExt(data: Bytes): (r: Option<string>)
    ensures r.Some? ==> Named(r.value)
  {
    if Take(data, 3) == Ascii("PVR") then Some("pvr")
    else if Take(data, 4) == MeshMagic then Some("mesh")
    else if Take(data, 4) == Ascii("RIFF") && Has(data, "FEV") then Some("fev")
    else if Take(data, 4) == Ascii("RIFF") && Has(data, "WAVE") then Some("wem")
    else BinaryExtAfterRiff(data)
  }
  /** The checks after the RIFF group, from RAWANIMA to CocosStudio-UI. */
  function BinaryExtAfterRiff(data: Bytes): (r: Option<string>)
    ensures r.Some? ==> Named(r.value)
  {
    if Take(data, 8) == Ascii("RAWANIMA") then Some("rawanimation")
    else if Take(data, 8) == Ascii("NEOXBIN1") then Some("uiprefab")
    else if Take(data, 8) == Ascii("SKELETON") then Some("skeleton")
    else if Take(data, 6) == [0x01, 0x00, 0x05, 0x00, 0x00, 0x00] then Some("foliage")
    else if Take(data, 8) == Ascii("NEOXMESH") then Some("uimesh")
    else if Take(data, 33) == Ascii("NVidia(r) GameWorks Blast(tm) v.1") then Some("blast")
    else if Take(data, 4) == [0xE3, 0x00, 0x00, 0x00] || Take(data, 4) == [0x63, 0x00, 0x00, 0x00]
         || Take(data, 4) == [0x4C, 0x0F, 0x00, 0x00] || Take(data, 4) == [0x27, 0xE3, 0x00, 0x01]
    then Some("pyc")
    else if Take(data, 12) == Ascii("CocosStudio-UI") then Some("coc")
    else BinaryExtAfterCoc(data)
  }
  /** The checks from the ASTC magic to NFXO. */
  function BinaryExtAfterCoc(data: Bytes): (r: Option<string>)
    ensures r.Some? ==> Named(r.value)
  {
    if Take(data, 4) == [0x13, 0xAB, 0xA1, 0x5C] then Some("astc")
    else if Take(data, 3) == Ascii("hit") then Some("hit")
    else if Take(data, 3) == Ascii("PKM") then Some("pkm")
    else if Take(data, 3) == Ascii("DDS") then Some("dds")
    else if Slice(data, -18, -2) == Ascii("TRUEVISION-XFILE") || Take(data, 3) == [0x00, 0x00, 0x02]
         || Take(data, 3) == [0x0D, 0x00, 0x02]
    then Some("tga")
    else if Take(data, 4) == Ascii("NFXO") then Some("nfx")
    else BinaryExtAfterNfx(data)
  }
  /** The checks from the C1 59 41 0D group to the animation marker. */
  function BinaryExtAfterNfx(data: Bytes): (r: Option<string>)
    ensures r.Some? ==> Named(r.value)
  {
    if Take(data, 4) == [0xC1, 0x59, 0x41, 0x0D] then
      (if Has(data, "Material") then Some("mtg")
       else if Has(data, "GisFiles") then Some("gim")
       else if Has(data, "Anim") then Some("ags")
       else Some("unknown1"))
    else if Take(data, 8) == Ascii("CompBlks") then Some("cbk")
    else if Take(data, 2) == Ascii("BM") then Some("bmp")
    else if Slice(data, 1, 4) == Ascii("KTX") then Some("ktx")
    else if Take(data, 9) == Ascii("blastmesh") then Some("blastmesh")
    else if Take(data, 10) == Ascii("clothasset") then Some("clothasset")
    else if Slice(data, 1, 4) == Ascii("PNG") then Some("png")
    else if Take(data, 4) == Ascii("FSB5") then Some("fsb")
    else if Take(data, 4) == Ascii("VANT") then Some("vant")
    else if Take(data, 4) == Ascii("MDMP") then Some("mdmp")
    else if Take(data, 4) == Ascii("RGIS") then Some("gis")
    else if Take(data, 4) == Ascii("NTRK") then Some("trk")
    else if Take(data, 4) == Ascii("OggS") then Some("ogg")
    else if Take(data, 4) == [0xFF, 0xD8, 0xFF, 0xE1] then Some("jpg")
    else if Take(data, 4) == Ascii("BKHD") then Some("bnk")
    else if Take(data, 4) == Ascii("TZif") then Some("tzif")
    else if Slice(data, 6, 10) == Ascii("JFIF") then Some("jfif")
    else if Slice(data, 4, 8) == Ascii("ftyp") then Some("mp4")
    else if Slice(data, 0x3B, 0x3F) == [0xC5, 0x00, 0x00, 0x80, 0x3F] then Some("slpb")
    else if Contains(data, AnimationMarker) then Some("animation")
    else None
  }

  const MeshMagic: Bytes := [0x34, 0x80, 0xC8, 0xBB]

  /** The byte run that marks a raw animation. */
  const AnimationMarker: Bytes := [0x00, 0x00, 0x00, 0x00, 0x00, 0x55, 0x55]

  /** What a table answers: a non-empty extension that is neither of the two fallbacks of `GetExt`. */
  predicate Named(ext: string) {
    ext != "" && ext != "dat" && ext != "empty"
  }

  // ------------------------------------------------------------ _get_text_ext

  /** The text signature table: two prefix rules, then the markup rules for data under 100000000 bytes. */
  function TextExt(data: Bytes): (r: Option<string>)
    ensures r.Some? ==> Named(r.value)
  {
    if Take(data, 18) == Ascii("from typing import ") then Some("pyi")
    else if Take(data, 27) == Ascii("-----BEING PUBLIC KEY-----") then Some("pem")
    else if |data| < 100000000 then MarkupExt(data)
    else None
  }

  /** The substring rules of the text table, first match in source order. */
  function MarkupExt(data: Bytes): (r: Option<string>)
    ensures r.Some? ==> Named(r.value)
  {
    if Has(data, "<Material") then Some("mtl")
    else if Has(data, "<MaterialGroup") then Some("mtg")
    else if Has(data, "<MetaInfo") then Some("pvr.meta")
    else if Has(data, "SHEX") && Has(data, "OSGN") then Some("binary")
    else if Has(data, "<Section") then Some("sec")
    else if Has(data, "<SubMesh") then Some("gim")
    else if Has(data, "<FxGroup") then Some("sfx")
    else if Has(data, "<Track") then Some("trackgroup")
    else if Has(data, "<Instances") then Some("decal")
    else if Has(data, "<Physics") then Some("col")
    else if Has(data, "<LODPolicy") || Has(data, "<LODProfile") then Some("lod")
    else if Has(data, "Type=\"Animation\"") then Some("animation")
    else if Has(data, "DisableBakeLightProbe=") then Some("prefab")
    else MarkupExtFromScene(data)
  }

  /** The substring rules from '<Scene' to '<LocalFogParams' and the audio rule. */
  function MarkupExtFromScene(data: Bytes): (r: Option<string>)
    ensures r.Some? ==> Named(r.value)
  {
    if Has(data, "<Scene") then Some("scn")
    else if Has(data, "\"ParticleSystemTemplate\"") then Some("pse")
    else if Has(data, "<MainBody") then Some("nxcompute")
    else if Has(data, "<MapSkeletonToMeshBone") then Some("skeletonextra")
    else if Has(data, "<ShadingModel") then Some("nxshader")
    else if Has(data, "<BlastDynamic") then Some("blt")
    else if Has(data, "\"ParticleAudio\"") then Some("psemusic")
    else if Has(data, "<BlendSpace") then
      (if Has(data, "is2D=\"false\"") then Some("blendspace1d") else Some("blendspace"))
    else if Has(data, "<AnimationConfig") then Some("animconfig")
    else if Has(data, "<AnimationGraph") then Some("animgraph")
    else if Has(data, "<Head Type=\"Timeline\"") then Some("timeline")
    else if Has(data, "<Chain") then Some("physicalbone")
    else if Has(data, "<PostProcess") then Some("postprocess")
    else if Has(data, "\"mesh_import_options\":{") then Some("nxmeta")
    else if Has(data, "<SceneConfig") then Some("scnex")
    else if Has(data, "<LocalPoints") then Some("localweather")
    else if Has(data, "GeoBatchHint=\"0\"") then Some("gimext")
    else if Has(data, "\"AssetType\":\"HapticsData\"") then Some("haptic")
    else if Has(data, "<LocalFogParams") then Some("localfogparams")
    else if Has(data, "<Audios") || Has(data, "<AudioSource") then Some("prefabaudio")
    else MarkupExtFromReferenceSkeleton(data)
  }

  /** The substring rules from '"ReferenceSkeleton' to the end of the table. */
  function MarkupExtFromReferenceSkeleton(data: Bytes): (r: Option<string>)
    ensures r.Some? ==> Named(r.value)
  {
    if Has(data, "\"ReferenceSkeleton") then Some("featureschema")
    else if Has(data, "<Relationships") then Some("xml.rels")
    else if Has(data, "<Waterfall") then Some("waterfall")
    else if Has(data, "\"ReferenceSkeletonPath\"") then Some("mirrortable")
    else if Has(data, "<ClothAsset") then Some("clt")
    else if Has(data, "<plist") then Some("plist")
    else if Has(data, "<ShaderCompositor") || Has(data, "<ShaderFeature")
         || Has(data, "<ShaderIndexes") || Has(data, "<RenderTrigger")
    then Some("render")
    else if Has(data, "<SkeletonRig") then Some("skeletonrig")
    else if Has(data, "format: ") && Has(data, "filter: ") then Some("atlas")
    else if Has(data, "<ShaderCache") then Some("cache")
    else if Has(data, "char") && Has(data, "width=") && Has(data, "height=") then Some("fnt")
    else if Has(data, "<AllCaches") then Some("info")
    else if Has(data, "<AllPreloadCaches") then Some("list")
    else if Has(data, "<Remove_Files") then Some("map")
    else if Has(data, "<HLSL File=\"") then Some("md5")
    else if Has(data, "<EnvParticle") then Some("envp")
    else if Has(data, "<TextureGroup") then Some("txg")
    else if Has(data, "?xml") then Some("xml")
    else None
  }

  // ------------------------------------------------------------------ get_ext

  /** Python truthiness of a table result: neither None nor "". */
  predicate Found(ext: Option<string>) {
    ext.Some? && ext.value != ""
  }

  /**
   * The extension for `data`: "empty" for no data, otherwise the table
   * chosen by the TEXT flag, falling back to "dat".
   */
  function GetExt(data: Bytes, flags: Flags): (ext: string)
    ensures ext != ""
    ensures ext == "empty" <==> |data| == 0
    ensures |data| > 0 && HasFlag(flags, TextFlag) ==>
      (ext == "dat" <==> TextExt(data).None?) && (TextExt(data).Some? ==> ext == TextExt(data).value)
    ensures |data| > 0 && !HasFlag(flags, TextFlag) ==>
      (ext == "dat" <==> BinaryExt(data).None?) && (BinaryExt(data).Some? ==> ext == BinaryExt(data).value)
  {
    if |data| == 0 then "empty"
    else if HasFlag(flags, TextFlag) then
      (var e := TextExt(data); if Found(e) then e.value else "dat")
    else
      (var e := BinaryExt(data); if Found(e) then e.value else "dat")
  }

  // -------------------------------------------------------- get_file_category

  function LowerChar(c: char): char {
    if 'A' <= c <= 'Z' then (c as int + 32) as char else c
  }

  /** `str.lower()` on the ASCII letters. */
  function Lower(s: string): (r: string)
    ensures |r| == |s|
    ensures forall i :: 0 <= i < |s| ==> r[i] == LowerChar(s[i])
  {
    seq(|s|, i requires 0 <= i < |s| => LowerChar(s[i]))
  }

  const TextureExtensions: seq<string> :=
    ["bmp", "gif", "jpg", "jpeg", "png", "pbm", "pgm", "ppm", "xbm",
     "xpm", "tga", "ico", "tiff", "dds", "pvr", "astc", "ktx", "ktx_low", "cbk"]

  /** The coarse category of an extension, compared after lower-casing. */
  function FileCategory(extension: string): (c: Category)
    ensures c == Texture <==> Lower(extension) in TextureExtensions
    ensures c == Mesh <==> Lower(extension) == "mesh"
    ensures c == Bank <==> Lower(extension) == "bnk"
    ensures c != Text
  {
    var ext := Lower(extension);
    if ext in TextureExtensions then Texture
    else if ext in ["mesh"] then Mesh
    else if ext in ["bnk"] then Bank
    else Other
  }

  // ------------------------------------------------------------------ lemmas

  /** A zero byte anywhere in the first 4000 makes the data binary. */
  lemma NulMeansBinary(data: Bytes, i: nat)
    requires i < |data| && i < 4000 && data[i] == 0
    ensures IsBinary(data)
  {
    assert OccursAt(Take(data, 4000), [0], i);
  }

  /** `is_binary` never looks past byte 4000. */
  lemma IsBinaryReadsPrefix(data: Bytes)
    ensures IsBinary(data) == IsBinary(Take(data, 4000))
  {
    assert Take(Take(data, 4000), 4000) == Take(data, 4000);
    assert Take(Take(data, 4000), 2048) == Take(data, 2048);
  }

  /** Seven-bit text without NUL bytes, the empty data included, is not binary. */
  lemma SevenBitTextIsNotBinary(data: Bytes)
    requires forall i :: 0 <= i < |data| ==> 0 < data[i] <= 0x7F
    ensures !IsBinary(data)
  {
    var head := Take(data, 4000);
    forall i | 0 <= i <= |head|
      ensures !OccursAt(head, [0], i)
    {
      if i < |head| {
        assert head[i..i + 1][0] == data[i];
      }
    }
    SevenBitWellFormed(Take(data, 2048), 0, |Take(data, 2048)|);
  }

  /**
   * A multi-byte character that starts before byte 2048 and ends after it
   * is cut by the 2048-byte sample, so the data counts as binary even when
   * the whole of it is well-formed.
   */
  lemma CutCharacterIsBinary(data: Bytes, k: nat)
    requires k <= |data| && WellFormedRange(data, 0, k)
    requires k < 2048 < k + CharLenAt(data, k, |data|)
    ensures IsBinary(data)
  {
    var head := Take(data, 2048);
    assert head[0..2048] == data[0..2048];
    DecodeWindow(head, 0, 2048, data, 0, 2048);
    CutCharacter(data, k, 2048);
  }

  /** Only the TEXT bit of the flags takes part in choosing the extension. */
  lemma GetExtReadsOnlyTextBit(data: Bytes, f: Flags, g: Flags)
    requires HasFlag(f, TextFlag) == HasFlag(g, TextFlag)
    ensures GetExt(data, f) == GetExt(data, g)
  {
  }

  /**
   * Two binary checks can never hold: 'coc' compares a 12-byte slice with
   * a 14-byte literal and 'slpb' the at most 4-byte `data[0x3B:0x3F]` with
   * a 5-byte literal.
   */
  lemma CocAndSlpbNeverMatch(data: Bytes)
    ensures Take(data, 12) != Ascii("CocosStudio-UI")
    ensures Slice(data, 0x3B, 0x3F) != [0xC5, 0x00, 0x00, 0x80, 0x3F]
  {
    SliceLengthBound(data, 0x3B, 0x3F);
  }

  /** The 34 80 C8 BB magic is answered by the mesh rule: only the 'PVR' check comes before it. */
  lemma MeshSignature(data: Bytes)
    requires Take(data, 4) == MeshMagic
    ensures BinaryExt(data) == Some("mesh")
  {
    assert data[0] == 0x34;
    assert Take(data, 3)[0] != Ascii("PVR")[0];
  }

  /** Non-empty binary data with the mesh magic lands in the MESH category. */
  lemma MeshMagicIsMesh(data: Bytes, flags: Flags)
    requires |data| > 0 && !HasFlag(flags, TextFlag) && Take(data, 4) == MeshMagic
    ensures GetExt(data, flags) == "mesh" && FileCategory(GetExt(data, flags)) == Mesh
  {
    MeshSignature(data);
    assert Lower("mesh") == "mesh";
  }

  /** A RIFF header with neither FEV nor WAVE falls through to the checks after the RIFF group. */
  lemma RiffFallsThrough(data: Bytes)
    requires Take(data, 4) == Ascii("RIFF") && !Has(data, "FEV") && !Has(data, "WAVE")
    ensures BinaryExt(data) == BinaryExtAfterRiff(data)
  {
    assert data[0] == 0x52;
    assert Take(data, 3)[0] != Ascii("PVR")[0];
    assert Take(data, 4)[0] != MeshMagic[0];
  }

  /** Lower-casing the argument first does not change the category. */
  lemma FileCategoryCaseInsensitive(extension: string)
    ensures FileCategory(Lower(extension)) == FileCategory(extension)
  {
    assert Lower(Lower(extension)) == Lower(extension);
  }

  /**
   * The 'pyi' rule never fires: it compares an 18-byte slice with a
   * 19-byte literal, so the table behaves as if it started at 'pem'.
   */
  lemma PyiNeverMatches(data: Bytes)
    ensures Take(data, 18) != Ascii("from typing import ")
    ensures TextExt(data) ==
      if Take(data, 27) == Ascii("-----BEING PUBLIC KEY-----") then Some("pem")
      else if |data| < 100000000 then MarkupExt(data)
      else None
  {
    assert |Ascii("from typing import ")| == 19;
  }

  /** The 'pem' rule compares a 27-byte slice with a 26-byte literal: it fires for that literal and nothing longer. */
  lemma PemOnlyForExactLiteral(data: Bytes)
    ensures Take(data, 27) == Ascii("-----BEING PUBLIC KEY-----") <==> data == Ascii("-----BEING PUBLIC KEY-----")
  {
  }

  lemma {:induction false} HasPrefixOf(data: Bytes, long: string, short: string)
    requires short <= long
    requires Has(data, long)
    ensures Has(data, short)
  {
    assert Ascii(short) <= Ascii(long);
    ContainsPrefix(data, Ascii(long), Ascii(short));
  }

  /** 'mtg' is shadowed in the text table: data holding '<MaterialGroup' holds '<Material', tested first. */
  lemma MtgShadowed(data: Bytes)
    requires Has(data, "<MaterialGroup")
    ensures MarkupExt(data) == Some("mtl")
  {
    HasPrefixOf(data, "<MaterialGroup", "<Material");
  }

  /** 'scnex' is shadowed: its run of rules starts with '<Scene', which '<SceneConfig' contains. */
  lemma ScnexShadowed(data: Bytes)
    requires Has(data, "<SceneConfig")
    ensures MarkupExtFromScene(data) == Some("scn")
  {
    HasPrefixOf(data, "<SceneConfig", "<Scene");
  }

  /** 'mirrortable' is shadowed: '"ReferenceSkeleton' is tested before '"ReferenceSkeletonPath"'. */
  lemma MirrortableShadowed(data: Bytes)
    requires Has(data, "\"ReferenceSkeletonPath\"")
    ensures MarkupExtFromReferenceSkeleton(data) == Some("featureschema")
  {
    HasPrefixOf(data, "\"ReferenceSkeletonPath\"", "\"ReferenceSkeleton");
  }
}
