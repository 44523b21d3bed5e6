/** The Project configuration manifest: what it holds, when it is valid, and its image as bytes. */
module Manifest {
  import opened Bytes
  import opened LittleEndian
  import Utf8

  type U32 = n: int | 0 <= n < 0x1_0000_0000
  type U64 = n: int | 0 <= n < 0x1_0000_0000_0000_0000
  type I64 = n: int | -0x8000_0000_0000_0000 <= n < 0x8000_0000_0000_0000

  const MAX_SIZE: nat := 0xFFFF_FFFF_FFFF_FFFF
  const NO_FILE: U32 := 0xFFFF_FFFF
  const SLASH: byte := 0x2F
  const HASH_SIZE: nat := 32

  type Digest = d: bytes | |d| == HASH_SIZE witness seq(32, _ => 0)

  /** SHA-256; nothing about it is used but the length of its result. */
  type Hasher = bytes -> Digest

  datatype Token = Token(volume: U64, reference: U64, usn: I64)

  const DEFAULT_TOKEN := Token(0, 0, -1)

  predicate TokenSet(t: Token) { t.volume != 0 && t.reference != 0 && t.usn >= 0 }

  /** One configuration file: who declared it, by which locator, and the proof of its content. */
  datatype Proof =
    Proof(declaring: U32, absolute: bool, path: bytes, contentHash: Digest, token: Token, tokenAvailable: bool)

  datatype Manifest = Manifest(files: seq<Proof>, configurationHash: Digest, preprocessorHash: Digest)

  predicate IsAbsolute(path: bytes) { path != [] && path[0] == SLASH }

  predicate PathOk(path: bytes) { path != [] && |path| < 0x1_0000_0000 && Utf8.Walks(path, 0) }

  predicate LocatorOk(f: Proof, index: nat) {
    if index == 0 then f.declaring == NO_FILE && !f.absolute && !IsAbsolute(f.path) && SLASH !in f.path
    else f.declaring < index && f.absolute == IsAbsolute(f.path)
  }

  predicate FileOk(f: Proof, index: nat) {
    PathOk(f.path) && LocatorOk(f, index) && (f.tokenAvailable ==> TokenSet(f.token))
  }

  predicate FilesOk(files: seq<Proof>) { forall i | 0 <= i < |files| :: FileOk(files[i], i) }

  /** A file, the file that declared it, and so on. */
  function Ancestry(files: seq<Proof>, index: nat): (r: seq<nat>)
    requires FilesOk(files) && index < |files|
    decreases index
  {
    if index == 0 then [0]
    else
      assert FileOk(files[index], index);
      [index] + Ancestry(files, files[index].declaring)
  }

  /** A walk from a file to who declared it, through earlier ones only, that ends with the first. */
  predicate Descends(files: seq<Proof>, a: seq<nat>) {
    && a != [] && a[|a| - 1] == 0 && (forall i | 0 <= i < |a| :: a[i] < |files|)
    && forall i | 0 <= i < |a| - 1 :: files[a[i]].declaring == a[i + 1] < a[i]
  }

  lemma DescendsMore(files: seq<Proof>, index: nat, rest: seq<nat>)
    requires index < |files| && Descends(files, rest) && files[index].declaring == rest[0] < index
    ensures Descends(files, [index] + rest)
  {
    var a := [index] + rest;
    forall i | 0 <= i < |a| - 1 ensures files[a[i]].declaring == a[i + 1] < a[i] {
      if i > 0 {
        assert a[i] == rest[i - 1] && a[i + 1] == rest[i];
      }
    }
  }

  /** Every file of valid ones descends from the first, which nothing declares. */
  lemma {:induction false} DescendsFromRoot(files: seq<Proof>, index: nat)
    requires FilesOk(files) && index < |files|
    ensures Ancestry(files, index) != [] && Ancestry(files, index)[0] == index
    ensures Descends(files, Ancestry(files, index))
    ensures files[0].declaring == 0xFFFF_FFFF && !files[0].absolute
    decreases index
  {
    hide PathOk, TokenSet, Descends;
    assert FileOk(files[0], 0) && FileOk(files[index], index);
    if index > 0 {
      DescendsFromRoot(files, files[index].declaring);
      DescendsMore(files, index, Ancestry(files, files[index].declaring));
    } else {
      assert Descends(files, [0]) by {
        RootDescends(files);
      }
    }
  }

  lemma RootDescends(files: seq<Proof>)
    requires files != []
    ensures Descends(files, [0])
  {
  }

  // ----- hash preimages -----

  const CONFIGURATION_TAG: bytes := [0x43, 0x57, 0x43, 0x46, 0x47, 0x30, 0x30, 0x32]

  function TypeCode(f: Proof): (r: nat) { if f.absolute then 1 else 0 }

  function FilePreimage(f: Proof): (r: bytes) {
    Text(f.declaring, 4) + (Text(TypeCode(f), 4) + (Text(|f.path|, 8) + (f.path + f.contentHash)))
  }

  function FilesPreimage(files: seq<Proof>): (r: bytes) {
    if files == [] then [] else FilePreimage(files[0]) + FilesPreimage(files[1..])
  }

  function ConfigurationPreimage(files: seq<Proof>): (r: bytes) {
    CONFIGURATION_TAG + (Text(|files|, 8) + FilesPreimage(files))
  }

  function ConfigurationHash(hash: Hasher, files: seq<Proof>): (r: Digest) { hash(ConfigurationPreimage(files)) }

  // ----- the image -----

  const MAGIC: bytes := [0x43, 0x57, 0x50, 0x4D, 0x41, 0x4E, 0x30, 0x33]
  const VERSION: nat := 3
  const HEADER_SIZE: nat := 80
  const ENTRY_SIZE: nat := 72
  const CHECKSUM_SIZE: nat := 32

  function TokenOf(f: Proof): (r: Token) { if f.tokenAvailable then f.token else Token(0, 0, 0) }

  function Unsigned(n: I64): (r: nat) { n % 0x1_0000_0000_0000_0000 }

  function NumbersText(f: Proof): (r: bytes) {
    Text(f.declaring, 4) + Text(TypeCode(f), 4) + Text(|f.path|, 4) + Text(if f.tokenAvailable then 1 else 0, 4)
  }

  function TokenText(t: Token): (r: bytes) { Text(t.volume, 8) + Text(t.reference, 8) + Text(Unsigned(t.usn), 8) }

  function EntryText(f: Proof): (s: bytes)
    ensures |s| == ENTRY_SIZE + |f.path|
  {
    NumbersText(f) + f.contentHash + TokenText(TokenOf(f)) + f.path
  }

  function FilesText(files: seq<Proof>): (r: bytes) {
    if files == [] then [] else EntryText(files[0]) + FilesText(files[1..])
  }

  function HeaderText(m: Manifest): (s: bytes)
    ensures |s| == HEADER_SIZE
  {
    MAGIC + Text(VERSION, 4) + Text(|m.files|, 4) + m.configurationHash + m.preprocessorHash
  }

  function PayloadText(m: Manifest): (r: bytes) { HeaderText(m) + FilesText(m.files) }

  function ImageOf(hash: Hasher, m: Manifest): (r: bytes) { PayloadText(m) + hash(PayloadText(m)) }

  function FilesSize(files: seq<Proof>): (r: nat) {
    if files == [] then 0 else ENTRY_SIZE + |files[0].path| + FilesSize(files[1..])
  }

  function ImageSize(m: Manifest): (r: nat) { HEADER_SIZE + CHECKSUM_SIZE + FilesSize(m.files) }

  lemma {:induction false} FilesTextSize(files: seq<Proof>)
    ensures |FilesText(files)| == FilesSize(files)
    decreases |files|
  {
    hide EntryText;
    if files != [] {
      FilesTextSize(files[1..]);
    }
  }

  lemma {:induction false} FilesTextConcat(a: seq<Proof>, b: seq<Proof>)
    ensures FilesText(a + b) == FilesText(a) + FilesText(b) && FilesSize(a + b) == FilesSize(a) + FilesSize(b)
    decreases |a|
  {
    hide EntryText;
    if a == [] {
      assert a + b == b;
    } else {
      assert (a + b)[1..] == a[1..] + b;
      FilesTextConcat(a[1..], b);
    }
  }

  lemma FilesTextSnoc(files: seq<Proof>, f: Proof)
    ensures FilesText(files + [f]) == FilesText(files) + EntryText(f)
    ensures FilesSize(files + [f]) == FilesSize(files) + ENTRY_SIZE + |f.path|
  {
    hide EntryText;
    FilesTextConcat(files, [f]);
    assert [f][1..] == [];
    assert EntryText(f) + [] == EntryText(f);
  }

  /** What every writer of the format accepts. */
  predicate Valid(hash: Hasher, m: Manifest) {
    && 0 < |m.files| < 0x1_0000_0000 && FilesOk(m.files) && ConfigurationHash(hash, m.files) == m.configurationHash
    && ImageSize(m) <= MAX_SIZE
  }

  /** A token that is not available is not stored. */
  function Normal(f: Proof): (r: Proof) { if f.tokenAvailable then f else f.(token := DEFAULT_TOKEN) }

  function NormalFiles(files: seq<Proof>): (r: seq<Proof>) {
    seq(|files|, i requires 0 <= i < |files| => Normal(files[i]))
  }

  function Normalised(m: Manifest): (r: Manifest) { m.(files := NormalFiles(m.files)) }

  predicate IsNormal(files: seq<Proof>) { forall i | 0 <= i < |files| :: Normal(files[i]) == files[i] }

  /** What a reader can give back. */
  predicate Canonical(hash: Hasher, m: Manifest) { Valid(hash, m) && IsNormal(m.files) }

  predicate IsImage(hash: Hasher, m: Manifest, image: bytes) { Canonical(hash, m) && ImageOf(hash, m) == image }

  // ----- entries have one reading -----

  function FieldAt(image: bytes, offset: nat, from: nat, size: nat): (r: bytes)
    requires offset + from + size <= |image|
  {
    image[offset + from..offset + from + size]
  }

  /** The fields of an entry as they stand in an image. */
  predicate Stands(image: bytes, offset: nat, f: Proof) {
    && offset + ENTRY_SIZE + |f.path| <= |image|
    && FieldAt(image, offset, 0, 4) == Text(f.declaring, 4)
    && FieldAt(image, offset, 4, 4) == Text(if f.absolute then 1 else 0, 4)
    && FieldAt(image, offset, 8, 4) == Text(|f.path|, 4)
    && FieldAt(image, offset, 12, 4) == Text(if f.tokenAvailable then 1 else 0, 4)
    && FieldAt(image, offset, 16, 32) == f.contentHash
    && FieldAt(image, offset, 48, 8) == Text(TokenOf(f).volume, 8)
       && FieldAt(image, offset, 56, 8) == Text(TokenOf(f).reference, 8)
    && FieldAt(image, offset, 64, 8) == Text(Unsigned(TokenOf(f).usn), 8)
       && FieldAt(image, offset, 72, |f.path|) == f.path
  }

  lemma EntryParts(f: Proof)
    ensures var s := EntryText(f);
            && s[0..4] == Text(f.declaring, 4) && s[4..8] == Text(TypeCode(f), 4) && s[8..12] == Text(|f.path|, 4)
            && s[12..16] == Text(if f.tokenAvailable then 1 else 0, 4) && s[16..48] == f.contentHash
            && s[48..56] == Text(TokenOf(f).volume, 8) && s[56..64] == Text(TokenOf(f).reference, 8)
            && s[64..72] == Text(Unsigned(TokenOf(f).usn), 8) && s[72..] == f.path
  {
    hide Text, Unsigned, TokenOf;
    var s, numbers, token := EntryText(f), NumbersText(f), TokenText(TokenOf(f));
    assert s[0..16] == numbers && s[16..48] == f.contentHash && s[48..72] == token;
    assert numbers == s[0..4] + s[4..8] + s[8..12] + s[12..16];
    assert token == s[48..56] + s[56..64] + s[64..72];
  }

  lemma SliceOfSlice(image: bytes, offset: nat, size: nat, from: nat, to: nat)
    requires offset + size <= |image| && from <= to <= size
    ensures image[offset..offset + size][from..to] == image[offset + from..offset + to]
  {
    var here := image[offset..offset + size];
    assert forall k | from <= k < to :: here[k] == image[offset + k];
  }

  lemma EntryStands(image: bytes, offset: nat, f: Proof)
    requires offset + ENTRY_SIZE + |f.path| <= |image|
    ensures image[offset..offset + ENTRY_SIZE + |f.path|] == EntryText(f) <==> Stands(image, offset, f)
  {
    hide Text, Unsigned, TokenOf, EntryText;
    var size := ENTRY_SIZE + |f.path|;
    var here := image[offset..offset + size];
    forall from, to | 0 <= from <= to <= size ensures here[from..to] == image[offset + from..offset + to] {
      SliceOfSlice(image, offset, size, from, to);
    }
    EntryParts(f);
    assert here[72..] == here[72..size];
    if Stands(image, offset, f) {
      SameParts(here, EntryText(f));
    }
  }

  lemma SameParts(a: bytes, b: bytes)
    requires |a| == |b| >= 72 && a[0..4] == b[0..4] && a[4..8] == b[4..8] && a[8..12] == b[8..12]
             && a[12..16] == b[12..16]
    requires a[16..48] == b[16..48] && a[48..56] == b[48..56] && a[56..64] == b[56..64] && a[64..72] == b[64..72]
             && a[72..] == b[72..]
    ensures a == b
  {
    assert a == a[0..4] + a[4..8] + a[8..12] + a[12..16] + a[16..48] + a[48..56] + a[56..64] + a[64..72] + a[72..];
    assert b == b[0..4] + b[4..8] + b[8..12] + b[12..16] + b[16..48] + b[48..56] + b[56..64] + b[64..72] + b[72..];
  }

  lemma TextInjective(a: nat, b: nat, width: nat)
    requires a < Power(width) && b < Power(width) && Text(a, width) == Text(b, width)
    ensures a == b
  {
    ValueOfText(a, width);
    ValueOfText(b, width);
  }

  /** An entry that stands at an offset is the only normal one that does. */
  lemma StandsOnce(image: bytes, offset: nat, f: Proof, g: Proof)
    requires Stands(image, offset, f) && Stands(image, offset, g) && |f.path| < 0x1_0000_0000
             && |g.path| < 0x1_0000_0000
    requires Normal(f) == f && Normal(g) == g && (f.tokenAvailable ==> f.token.usn >= 0)
             && (g.tokenAvailable ==> g.token.usn >= 0)
    ensures f == g
  {
    hide Text, Power;
    Widths();
    TextInjective(f.declaring, g.declaring, 4);
    TextInjective(TypeCode(f), TypeCode(g), 4);
    TextInjective(|f.path|, |g.path|, 4);
    TextInjective(if f.tokenAvailable then 1 else 0, if g.tokenAvailable then 1 else 0, 4);
    var s, t := TokenOf(f), TokenOf(g);
    TextInjective(s.volume, t.volume, 8);
    TextInjective(s.reference, t.reference, 8);
    TextInjective(Unsigned(s.usn), Unsigned(t.usn), 8);
  }
}
