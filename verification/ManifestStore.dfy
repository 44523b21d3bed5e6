/** The codec: a layout is prepared, an image is written in place and read back. */
module ManifestStore {
  import opened Bytes
  import opened Sequences
  import opened LittleEndian
  import opened Manifest
  import Utf8

  datatype Result = Success | Invalid | IoFailed

  datatype Layout = Layout(size: nat, fileCount: nat, configurationHash: Digest, preprocessorHash: Digest)

  /** A layout from which nothing can be encoded. */
  function NoLayout(): (r: Layout) { Layout(0, 0, seq(32, _ => 0), seq(32, _ => 0)) }

  method ValidateFile(file: Proof, index: nat) returns (ok: bool)
    ensures ok == FileOk(file, index)
  {
    var encoded := Utf8.ValidUtf8(file.path);
    if !encoded || |file.path| == 0 || |file.path| > 0xFFFF_FFFF {
      return false;
    }
    if index == 0 {
      if file.declaring != NO_FILE || file.absolute || IsAbsolute(file.path) || SLASH in file.path {
        return false;
      }
    } else {
      if file.declaring >= index {
        return false;
      }
      if !file.absolute {
        if IsAbsolute(file.path) {
          return false;
        }
      } else if !IsAbsolute(file.path) {
        return false;
      }
    }
    return !(file.tokenAvailable && !TokenSet(file.token));
  }

  predicate Encodable(files: seq<Proof>) { forall i | 0 <= i < |files| :: Utf8.Walks(files[i].path, 0) }

  /** Hashing the files throws when a path cannot be encoded. */
  method CalculateConfigurationHash(hash: Hasher, files: seq<Proof>) returns (ok: bool, digest: Digest)
    ensures ok == Encodable(files) && (ok ==> digest == ConfigurationHash(hash, files))
  {
    var i := 0;
    var canonical := CONFIGURATION_TAG + Text(|files|, 8);
    digest := seq(32, _ => 0);
    while i < |files|
      invariant 0 <= i <= |files| && forall j | 0 <= j < i :: Utf8.Walks(files[j].path, 0)
      invariant canonical + FilesPreimage(files[i..]) == ConfigurationPreimage(files)
    {
      hide FilePreimage, ConfigurationPreimage;
      var encoded := Utf8.ValidUtf8(files[i].path);
      if !encoded {
        return false, digest;
      }
      assert files[i..][1..] == files[i + 1..];
      canonical := canonical + FilePreimage(files[i]);
      i := i + 1;
    }
    assert canonical == ConfigurationPreimage(files);
    return true, hash(canonical);
  }

  /** A layout is given exactly for a valid manifest, and its size is that of the image. */
  method PrepareLayout(hash: Hasher, m: Manifest) returns (result: Result, layout: Layout)
    ensures result == Success <==> Valid(hash, m)
    ensures result == IoFailed <==> 0 < |m.files| < 0x1_0000_0000 && !Encodable(m.files)
    ensures if result == Success
            then layout == Layout(|ImageOf(hash, m)|, |m.files|, m.configurationHash, m.preprocessorHash)
            else layout == NoLayout()
  {
    hide ConfigurationHash, EntryText, HeaderText, FileOk, FilesText, Encodable;
    ValidIsEncodable(hash, m);
    layout := NoLayout();
    if |m.files| == 0 || |m.files| > 0xFFFF_FFFF {
      return Invalid, layout;
    }
    var hashed, digest := CalculateConfigurationHash(hash, m.files);
    if !hashed {
      return IoFailed, layout;
    }
    if digest != m.configurationHash {
      return Invalid, layout;
    }
    var size := HEADER_SIZE + CHECKSUM_SIZE;
    var i := 0;
    assert m.files[..0] == [];
    while i < |m.files|
      invariant 0 <= i <= |m.files| && FilesOk(m.files[..i])
      invariant size == HEADER_SIZE + CHECKSUM_SIZE + FilesSize(m.files[..i]) && size <= MAX_SIZE
    {
      var f := m.files[i];
      FilesTextSnoc(m.files[..i], f);
      assert m.files[..i + 1] == m.files[..i] + [f];
      FilesSizeGrows(m.files, i + 1);
      var ok := ValidateFile(f, i);
      if !ok || ENTRY_SIZE > MAX_SIZE - size || |f.path| > MAX_SIZE - size - ENTRY_SIZE {
        return Invalid, layout;
      }
      size := size + ENTRY_SIZE + |f.path|;
      i := i + 1;
    }
    assert m.files[..i] == m.files;
    ImageLength(hash, m);
    return Success, Layout(size, |m.files|, m.configurationHash, m.preprocessorHash);
  }

  lemma ValidIsEncodable(hash: Hasher, m: Manifest)
    ensures Valid(hash, m) ==> Encodable(m.files)
  {
    if Valid(hash, m) {
      forall i | 0 <= i < |m.files| ensures Utf8.Walks(m.files[i].path, 0) {
        assert FileOk(m.files[i], i);
      }
    }
  }

  lemma FilesSizeGrows(files: seq<Proof>, n: nat)
    requires n <= |files|
    ensures FilesSize(files[..n]) <= FilesSize(files)
  {
    hide FilesText, EntryText, FilesSize;
    FilesTextConcat(files[..n], files[n..]);
    assert files[..n] + files[n..] == files;
  }

  // ----- writing -----

  method WriteBytes(output: array<byte>, offset: nat, data: bytes) returns (ok: bool, next: nat)
    modifies output
    ensures ok <==> offset + |data| <= output.Length
    ensures next == if ok then offset + |data| else offset
    ensures ok ==> output[..next] == old(output[..offset]) + data
  {
    if offset > output.Length || |data| > output.Length - offset {
      return false, offset;
    }
    forall k | 0 <= k < |data| {
      output[offset + k] := data[k];
    }
    assert output[..offset] == old(output[..offset]) && output[offset..offset + |data|] == data;
    assert output[..offset + |data|] == output[..offset] + output[offset..offset + |data|];
    return true, offset + |data|;
  }

  lemma EntryRegroups(done: bytes, f: Proof)
    ensures var t := TokenOf(f);
            done + Text(f.declaring, 4) + Text(TypeCode(f), 4) + Text(|f.path|, 4)
                + Text(if f.tokenAvailable then 1 else 0, 4)
              + f.contentHash + Text(t.volume, 8) + Text(t.reference, 8) + Text(Unsigned(t.usn), 8) + f.path
              == done + EntryText(f)
  {
    hide Text, TypeCode, Unsigned, TokenOf;
    var t := TokenOf(f);
    var a := Text(f.declaring, 4) + Text(TypeCode(f), 4) + Text(|f.path|, 4)
        + Text(if f.tokenAvailable then 1 else 0, 4);
    var b := Text(t.volume, 8) + Text(t.reference, 8) + Text(Unsigned(t.usn), 8);
    assert EntryText(f) == a + f.contentHash + b + f.path;
  }

  /** The eight numbers and hashes of an entry and its path, each behind the other. */
  method WriteEntry(output: array<byte>, offset: nat, file: Proof) returns (ok: bool, next: nat)
    requires offset <= output.Length
    modifies output
    ensures ok <==> offset + |EntryText(file)| <= output.Length
    ensures ok ==> next == offset + |EntryText(file)| && output[..next] == old(output[..offset]) + EntryText(file)
  {
    hide Text, TypeCode, Unsigned, EntryText;
    var t := if file.tokenAvailable then file.token else Token(0, 0, 0);
    var flags := if file.tokenAvailable then 1 else 0;
    EntryRegroups(output[..offset], file);
    ok, next := Write(output, offset, file.declaring, 4);
    if !ok { return; }
    ok, next := Write(output, next, TypeCode(file), 4);
    if !ok { return; }
    ok, next := Write(output, next, |file.path|, 4);
    if !ok { return; }
    ok, next := Write(output, next, flags, 4);
    if !ok { return; }
    ok, next := WriteBytes(output, next, file.contentHash);
    if !ok { return; }
    ok, next := Write(output, next, t.volume, 8);
    if !ok { return; }
    ok, next := Write(output, next, t.reference, 8);
    if !ok { return; }
    ok, next := Write(output, next, Unsigned(t.usn), 8);
    if !ok { return; }
    ok, next := WriteBytes(output, next, file.path);
  }

  method WriteHeader(output: array<byte>, m: Manifest) returns (ok: bool, next: nat)
    modifies output
    ensures ok <==> HEADER_SIZE <= output.Length
    ensures ok ==> next == HEADER_SIZE && output[..next] == HeaderText(m)
  {
    hide Text;
    ok, next := WriteBytes(output, 0, MAGIC);
    if !ok { return; }
    assert output[..0] == [];
    ok, next := Write(output, next, VERSION, 4);
    if !ok { return; }
    ok, next := Write(output, next, |m.files|, 4);
    if !ok { return; }
    ok, next := WriteBytes(output, next, m.configurationHash);
    if !ok { return; }
    ok, next := WriteBytes(output, next, m.preprocessorHash);
  }

  predicate Matches(layout: Layout, m: Manifest) {
    && |m.files| == layout.fileCount && m.configurationHash == layout.configurationHash
    && m.preprocessorHash == layout.preprocessorHash
  }

  /** Encoding fills the span with the image, or fails: it does not depend on how the layout was come by. */
  method Encode(hash: Hasher, m: Manifest, layout: Layout, output: array<byte>) returns (result: Result)
    modifies output
    ensures result == Success <==>
      output.Length == layout.size && layout.size != 0 && Matches(layout, m) && FilesOk(m.files)
          && ImageSize(m) == output.Length
    ensures result == Success || result == Invalid
    ensures result == Success ==> output[..] == ImageOf(hash, m)
  {
    hide EntryText, HeaderText, FileOk;
    if layout.size == 0 || output.Length != layout.size || |m.files| != layout.fileCount
       || m.configurationHash != layout.configurationHash || m.preprocessorHash != layout.preprocessorHash {
      return Invalid;
    }
    var ok, offset := WriteHeader(output, m);
    if !ok {
      return Invalid;
    }
    var index := 0;
    assert m.files[..0] == [];
    while index < layout.fileCount
      invariant 0 <= index <= |m.files| && offset == HEADER_SIZE + FilesSize(m.files[..index]) <= output.Length
      invariant output[..offset] == HeaderText(m) + FilesText(m.files[..index])
      invariant FilesOk(m.files[..index])
    {
      var file := m.files[index];
      assert m.files[..index + 1] == m.files[..index] + [file];
      FilesTextSnoc(m.files[..index], file);
      FilesSizeGrows(m.files, index + 1);
      ok := ValidateFile(file, index);
      if !ok {
        return Invalid;
      }
      ghost var done := output[..offset];
      ok, offset := WriteEntry(output, offset, file);
      if !ok {
        return Invalid;
      }
      assert output[..offset] == HeaderText(m) + FilesText(m.files[..index]) + EntryText(file);
      index := index + 1;
    }
    assert m.files[..index] == m.files;
    var payloadSize := output.Length - CHECKSUM_SIZE;
    if offset != payloadSize {
      return Invalid;
    }
    var digest := hash(output[..payloadSize]);
    ok, offset := WriteBytes(output, offset, digest);
    assert output[..output.Length] == output[..];
    return Success;
  }

  // ----- reading -----

  /** A valid, normal entry stands at an offset, clear of the checksum. */
  predicate EntryAt(image: bytes, offset: nat, payload: nat, index: nat, f: Proof) {
    FileOk(f, index) && Normal(f) == f && Stands(image, offset, f) && offset + ENTRY_SIZE + |f.path| <= payload
  }

  predicate Heads(index: nat, declaring: nat, typeCode: nat, pathSize: nat, flags: nat) {
    && typeCode <= 1 && pathSize != 0 && flags <= 1
    && if index == 0 then declaring == NO_FILE && typeCode == 0 else declaring < index
  }

  /** The numbers at the head of an entry, as any entry standing there would have them. */
  lemma HeadsAgree(image: bytes, offset: nat, payload: nat, index: nat, f: Proof)
    requires EntryAt(image, offset, payload, index, f) && payload <= |image|
    ensures Value(FieldAt(image, offset, 0, 4)) == f.declaring && Value(FieldAt(image, offset, 4, 4)) == TypeCode(f)
    ensures Value(FieldAt(image, offset, 8, 4)) == |f.path|
    ensures Value(FieldAt(image, offset, 12, 4)) == if f.tokenAvailable then 1 else 0
    ensures Heads(index, f.declaring, TypeCode(f), |f.path|, if f.tokenAvailable then 1 else 0)
  {
    hide Text, Value, Power;
    Widths();
    ValueOfText(f.declaring, 4);
    ValueOfText(TypeCode(f), 4);
    ValueOfText(|f.path|, 4);
    ValueOfText(if f.tokenAvailable then 1 else 0, 4);
  }

  lemma TokensAgree(image: bytes, offset: nat, payload: nat, index: nat, f: Proof)
    requires EntryAt(image, offset, payload, index, f) && payload <= |image|
    ensures Value(FieldAt(image, offset, 48, 8)) == TokenOf(f).volume
            && Value(FieldAt(image, offset, 56, 8)) == TokenOf(f).reference
    ensures Value(FieldAt(image, offset, 64, 8)) == TokenOf(f).usn
  {
    hide Text, Value, Power;
    Widths();
    ValueOfText(TokenOf(f).volume, 8);
    ValueOfText(TokenOf(f).reference, 8);
    ValueOfText(Unsigned(TokenOf(f).usn), 8);
  }

  function Signed(n: U64): (r: I64) { if n < 0x8000_0000_0000_0000 then n else n - 0x1_0000_0000_0000_0000 }

  /** Reads one entry, or finds that none stands there. */
  method ReadEntry(image: bytes, offset: nat, payload: nat, index: nat) returns (ok: bool, file: Proof, next: nat)
    requires offset <= payload && payload + CHECKSUM_SIZE == |image|
    ensures ok ==> EntryAt(image, offset, payload, index, file) && next == offset + ENTRY_SIZE + |file.path|
    ensures !ok ==> forall f :: !EntryAt(image, offset, payload, index, f)
  {
    hide Text, Value, Power, FileOk, Stands, TypeCode;
    Widths();
    file := Proof(0, false, [], seq(32, _ => 0), DEFAULT_TOKEN, false);
    next := offset;
    forall f | EntryAt(image, offset, payload, index, f)
      ensures Value(FieldAt(image, offset, 0, 4)) == f.declaring && Value(FieldAt(image, offset, 4, 4)) == TypeCode(f)
      ensures Value(FieldAt(image, offset, 8, 4)) == |f.path| && offset + ENTRY_SIZE + |f.path| <= payload
      ensures Value(FieldAt(image, offset, 12, 4)) == if f.tokenAvailable then 1 else 0
      ensures Heads(index, f.declaring, TypeCode(f), |f.path|, if f.tokenAvailable then 1 else 0)
    {
      HeadsAgree(image, offset, payload, index, f);
    }
    var declaring, typeCode, pathSize, flags: nat;
    ok, next, declaring := Read(image, offset, 4);
    if !ok { return; }
    ok, next, typeCode := Read(image, next, 4);
    if !ok || typeCode > 1 { ok := false; return; }
    ok, next, pathSize := Read(image, next, 4);
    if !ok || pathSize == 0 { ok := false; return; }
    ok, next, flags := Read(image, next, 4);
    if !ok || flags > 1 { ok := false; return; }
    if index == 0 {
      if declaring != NO_FILE || typeCode != 0 { ok := false; return; }
    } else if declaring >= index { ok := false; return; }
    if next > payload || payload - next < 56 || payload - next - 56 < pathSize {
      ok := false;
      return;
    }
    ok, file := ReadRest(image, offset, payload, index, declaring, typeCode, pathSize, flags);
    next := offset + ENTRY_SIZE + pathSize;
  }

  /** The one entry that can stand behind a head and a token that have been read. */
  function Candidate(image: bytes, offset: nat, declaring: U32, typeCode: nat, pathSize: nat, flags: nat,
      t: Token): (r: Proof)
    requires offset + ENTRY_SIZE + pathSize <= |image|
  {
    Proof(declaring, typeCode == 1, FieldAt(image, offset, 72, pathSize), FieldAt(image, offset, 16, 32),
      if flags == 1 then t else DEFAULT_TOKEN, flags == 1)
  }

  lemma OnlyCandidate(image: bytes, offset: nat, payload: nat, index: nat, f: Proof, declaring: U32, typeCode: nat,
      pathSize: U32,
      flags: nat, volume: U64, reference: U64, usn: U64)
    requires EntryAt(image, offset, payload, index, f) && payload <= |image|
    requires Heads(index, declaring, typeCode, pathSize, flags) && offset + ENTRY_SIZE + pathSize <= payload
    requires FieldAt(image, offset, 0, 4) == Text(declaring, 4) && FieldAt(image, offset, 4, 4) == Text(typeCode, 4)
    requires FieldAt(image, offset, 8, 4) == Text(pathSize, 4) && FieldAt(image, offset, 12, 4) == Text(flags, 4)
    requires volume == Value(FieldAt(image, offset, 48, 8)) && reference == Value(FieldAt(image, offset, 56, 8))
    requires usn == Value(FieldAt(image, offset, 64, 8))
    ensures f == Candidate(image, offset, declaring, typeCode, pathSize, flags, Token(volume, reference, Signed(usn)))
    ensures flags == 1 ==> TokenSet(f.token)
    ensures flags == 0 ==> volume == 0 && reference == 0 && usn == 0
  {
    hide Text, Value, Power, Utf8.Walks, FieldAt, IsAbsolute;
    Widths();
    TextInjective(f.declaring, declaring, 4);
    TextInjective(TypeCode(f), typeCode, 4);
    TextInjective(|f.path|, pathSize, 4);
    TextInjective(if f.tokenAvailable then 1 else 0, flags, 4);
    TokensAgree(image, offset, payload, index, f);
  }

  lemma StandsByParts(image: bytes, offset: nat, f: Proof, typeCode: nat, flags: nat, volume: U64, reference: U64,
      usn: U64)
    requires offset + ENTRY_SIZE + |f.path| <= |image|
    requires FieldAt(image, offset, 0, 4) == Text(f.declaring, 4) && FieldAt(image, offset, 4, 4) == Text(typeCode, 4)
    requires FieldAt(image, offset, 8, 4) == Text(|f.path|, 4) && FieldAt(image, offset, 12, 4) == Text(flags, 4)
    requires FieldAt(image, offset, 48, 8) == Text(volume, 8) && FieldAt(image, offset, 56, 8) == Text(reference, 8)
    requires FieldAt(image, offset, 64, 8) == Text(usn, 8) && FieldAt(image, offset, 16, 32) == f.contentHash
    requires FieldAt(image, offset, 72, |f.path|) == f.path && typeCode == TypeCode(f)
             && flags == if f.tokenAvailable then 1 else 0
    requires TokenOf(f).volume == volume && TokenOf(f).reference == reference && Unsigned(TokenOf(f).usn) == usn
    ensures Stands(image, offset, f)
  {
    hide Text, FieldAt, TokenOf, Unsigned;
  }

  lemma CandidateStands(image: bytes, offset: nat, declaring: U32, typeCode: nat, pathSize: U32, flags: nat,
      volume: U64, reference: U64, usn: U64)
    requires offset + ENTRY_SIZE + pathSize <= |image| && typeCode <= 1 && flags <= 1
    requires FieldAt(image, offset, 0, 4) == Text(declaring, 4) && FieldAt(image, offset, 4, 4) == Text(typeCode, 4)
    requires FieldAt(image, offset, 8, 4) == Text(pathSize, 4) && FieldAt(image, offset, 12, 4) == Text(flags, 4)
    requires FieldAt(image, offset, 48, 8) == Text(volume, 8) && FieldAt(image, offset, 56, 8) == Text(reference, 8)
    requires FieldAt(image, offset, 64, 8) == Text(usn, 8) && (flags == 0 ==> volume == 0 && reference == 0 && usn == 0)
    ensures Stands(image, offset,
            Candidate(image, offset, declaring, typeCode, pathSize, flags, Token(volume, reference, Signed(usn))))
  {
    hide Text, Stands, FieldAt, Signed, Candidate, Unsigned;
    var f := Candidate(image, offset, declaring, typeCode, pathSize, flags, Token(volume, reference, Signed(usn)));
    CandidateFields(image, offset, declaring, typeCode, pathSize, flags, Token(volume, reference, Signed(usn)));
    SignedRoundTrip(usn);
    StandsByParts(image, offset, f, typeCode, flags, volume, reference, usn);
  }

  /** Content hash, change token and path, behind a head that has been read. */
  method ReadRest(image: bytes, offset: nat, payload: nat, index: nat, declaring: U32, typeCode: nat, pathSize: U32,
      flags: nat)
    returns (ok: bool, file: Proof)
    requires Heads(index, declaring, typeCode, pathSize, flags) && offset + ENTRY_SIZE + pathSize <= payload <= |image|
    requires FieldAt(image, offset, 0, 4) == Text(declaring, 4) && FieldAt(image, offset, 4, 4) == Text(typeCode, 4)
    requires FieldAt(image, offset, 8, 4) == Text(pathSize, 4) && FieldAt(image, offset, 12, 4) == Text(flags, 4)
    ensures ok ==> EntryAt(image, offset, payload, index, file) && |file.path| == pathSize
    ensures !ok ==> forall f :: !EntryAt(image, offset, payload, index, f)
  {
    hide Text, Value, Power, Stands, Candidate;
    Widths();
    var volume, reference, usn: nat, next: nat;
    ok, next, volume := Read(image, offset + 48, 8);
    ok, next, reference := Read(image, next, 8);
    ok, next, usn := Read(image, next, 8);
    var token := Token(volume, reference, Signed(usn));
    file := Candidate(image, offset, declaring, typeCode, pathSize, flags, token);
    forall f | EntryAt(image, offset, payload, index, f)
      ensures f == file && (flags == 1 ==> TokenSet(f.token))
              && (flags == 0 ==> volume == 0 && reference == 0 && usn == 0)
    {
      OnlyCandidate(image, offset, payload, index, f, declaring, typeCode, pathSize, flags, volume, reference, usn);
    }
    CandidateFields(image, offset, declaring, typeCode, pathSize, flags, token);
    if flags == 1 {
      if !TokenSet(token) { return false, file; }
    } else if volume != 0 || reference != 0 || usn != 0 { return false, file; }
    CandidateStands(image, offset, declaring, typeCode, pathSize, flags, volume, reference, usn);
    var encoded := Utf8.ValidUtf8(file.path);
    if !encoded { return false, file; }
    if index == 0 {
      if IsAbsolute(file.path) || SLASH in file.path { return false, file; }
    } else if !file.absolute {
      if IsAbsolute(file.path) { return false, file; }
    } else if !IsAbsolute(file.path) { return false, file; }
    return true, file;
  }

  lemma CandidateFields(image: bytes, offset: nat, declaring: U32, typeCode: nat, pathSize: nat, flags: nat, t: Token)
    requires offset + ENTRY_SIZE + pathSize <= |image|
    ensures var f := Candidate(image, offset, declaring, typeCode, pathSize, flags, t);
            && f.declaring == declaring && f.absolute == (typeCode == 1) && |f.path| == pathSize
               && f.tokenAvailable == (flags == 1)
            && f.token == (if flags == 1 then t else DEFAULT_TOKEN)
            && f.path == FieldAt(image, offset, 72, pathSize) && f.contentHash == FieldAt(image, offset, 16, 32)
  {
  }

  lemma SignedRoundTrip(usn: U64)
    ensures Unsigned(Signed(usn)) == usn && Unsigned(0) == 0
  {
  }

  lemma HeaderParts(m: Manifest)
    ensures var s := HeaderText(m);
            && s[..8] == MAGIC && s[8..12] == Text(VERSION, 4) && s[12..16] == Text(|m.files|, 4)
            && s[16..48] == m.configurationHash && s[48..80] == m.preprocessorHash
  {
    hide Text;
  }

  lemma HeaderFromParts(m: Manifest, s: bytes)
    requires |s| == HEADER_SIZE && s[..8] == MAGIC && s[8..12] == Text(VERSION, 4) && s[12..16] == Text(|m.files|, 4)
    requires s[16..48] == m.configurationHash && s[48..80] == m.preprocessorHash
    ensures s == HeaderText(m)
  {
    hide Text;
    assert s == s[..8] + s[8..12] + s[12..16] + s[16..48] + s[48..80];
  }

  /** The parts of an image that do not depend on its entries. */
  lemma ImageParts(hash: Hasher, v: Manifest, image: bytes)
    requires IsImage(hash, v, image)
    ensures var payload := HEADER_SIZE + FilesSize(v.files);
            && |image| == payload + CHECKSUM_SIZE && FilesSize(v.files) > ENTRY_SIZE
            && image[..payload] == PayloadText(v) && image[payload..] == hash(image[..payload])
    ensures image[..8] == MAGIC && image[8..12] == Text(VERSION, 4) && image[12..16] == Text(|v.files|, 4)
    ensures image[16..48] == v.configurationHash && image[48..80] == v.preprocessorHash
  {
    hide EntryText, HeaderText, Text, ConfigurationHash, Utf8.Walks;
    FilesTextSize(v.files);
    assert FileOk(v.files[0], 0);
    var payload := HEADER_SIZE + FilesSize(v.files);
    assert image[..payload] == PayloadText(v);
    HeaderParts(v);
    var head := HeaderText(v);
    assert image[..80] == head;
    forall from, to | 0 <= from <= to <= 80 ensures image[from..to] == head[from..to] {
      SliceOfSlice(image, 0, 80, from, to);
    }
    assert image[..8] == image[0..8] && head[..8] == head[0..8];
  }

  /** Behind the entries before it, each entry of an image stands. */
  lemma InTheMiddle(lead: bytes, s: bytes, rest: bytes)
    ensures (lead + (s + rest))[|lead|..|lead| + |s|] == s
  {
  }

  lemma EntryOfImage(hash: Hasher, v: Manifest, image: bytes, index: nat)
    requires IsImage(hash, v, image) && index < |v.files|
    ensures var payload, offset := HEADER_SIZE + FilesSize(v.files), HEADER_SIZE + FilesSize(v.files[..index]);
            payload <= |image| && EntryAt(image, offset, payload, index, v.files[index])
  {
    hide EntryText, HeaderText, Stands, ConfigurationHash, Utf8.Walks;
    var f, before, after := v.files[index], v.files[..index], v.files[index + 1..];
    assert v.files == before + [f] + after;
    FilesTextConcat(before + [f], after);
    FilesTextSnoc(before, f);
    FilesTextSize(before);
    FilesTextSize(v.files);
    var offset := HEADER_SIZE + FilesSize(before);
    var lead := HeaderText(v) + FilesText(before);
    assert image == lead + (EntryText(f) + (FilesText(after) + hash(PayloadText(v))));
    InTheMiddle(lead, EntryText(f), FilesText(after) + hash(PayloadText(v)));
    EntryStands(image, offset, f);
  }

  /** What every image of whatever manifest has in common. */
  lemma ImagesLook(hash: Hasher, image: bytes)
    ensures forall v | IsImage(hash, v, image) ::
      && |image| == HEADER_SIZE + FilesSize(v.files) + CHECKSUM_SIZE && FilesSize(v.files) > ENTRY_SIZE
      && image[|image| - CHECKSUM_SIZE..] == hash(image[..|image| - CHECKSUM_SIZE])
      && image[..8] == MAGIC && image[8..12] == Text(VERSION, 4) && image[12..16] == Text(|v.files|, 4)
      && image[16..48] == v.configurationHash && image[48..80] == v.preprocessorHash
  {
    hide IsImage, EntryText, Text, HeaderText, ConfigurationHash;
    forall v | IsImage(hash, v, image)
      ensures |image| == HEADER_SIZE + FilesSize(v.files) + CHECKSUM_SIZE && FilesSize(v.files) > ENTRY_SIZE
      ensures image[|image| - CHECKSUM_SIZE..] == hash(image[..|image| - CHECKSUM_SIZE])
      ensures image[..8] == MAGIC && image[8..12] == Text(VERSION, 4) && image[12..16] == Text(|v.files|, 4)
      ensures image[16..48] == v.configurationHash && image[48..80] == v.preprocessorHash
    {
      ImageParts(hash, v, image);
    }
  }

  /** The manifest of an image, or the certainty that no valid manifest has that image. */
  method Decode(hash: Hasher, image: bytes) returns (result: Result, m: Manifest)
    requires |image| <= MAX_SIZE
    ensures result == Success || result == Invalid
    ensures result == Success ==> IsImage(hash, m, image)
    ensures result == Invalid ==> forall v :: !IsImage(hash, v, image)
  {
    hide IsImage, EntryText, Text, Value, HeaderText, EntryAt, ConfigurationHash;
    ImagesLook(hash, image);
    m := Manifest([], seq(32, _ => 0), seq(32, _ => 0));
    if |image| < HEADER_SIZE + ENTRY_SIZE + CHECKSUM_SIZE {
      return Invalid, m;
    }
    if image[..8] != MAGIC {
      return Invalid, m;
    }
    var payload := |image| - CHECKSUM_SIZE;
    if hash(image[..payload]) != image[payload..] {
      return Invalid, m;
    }
    var _, _, version := Read(image, 8, 4);
    var _, offset, count := Read(image, 12, 4);
    CountAgrees(hash, image, version, count);
    if version != VERSION || count == 0 {
      return Invalid, m;
    }
    var configurationHash, preprocessorHash := image[offset..offset + 32], image[offset + 32..offset + 64];
    offset := offset + 64;
    var files: seq<Proof> := [];
    var index := 0;
    assert image[..80] + FilesText(files) == image[..offset];
    while index < count
      invariant 0 <= index <= count && index == |files| && offset == HEADER_SIZE + FilesSize(files) <= payload
      invariant image[..80] + FilesText(files) == image[..offset] && FilesOk(files) && IsNormal(files)
      invariant forall v | IsImage(hash, v, image) :: |v.files| == count && v.files[..index] == files
    {
      hide FileOk, Normal;
      var ok, file, next := ReadEntry(image, offset, payload, index);
      NextEntry(hash, image, offset, payload, count, files, ok, file);
      if !ok {
        return Invalid, m;
      }
      EntryJoins(image, offset, payload, files, file);
      files := files + [file];
      offset := next;
      index := index + 1;
    }
    var hashed, digest := CalculateConfigurationHash(hash, files);
    m := Manifest(files, configurationHash, preprocessorHash);
    DecodedWhole(hash, image, m, offset, payload);
    if offset != payload || !hashed || digest != configurationHash {
      return Invalid, m;
    }
    return Success, m;
  }

  lemma CountAgrees(hash: Hasher, image: bytes, version: nat, count: nat)
    requires |image| >= 16 && image[8..12] == Text(version, 4) && image[12..16] == Text(count, 4)
    requires version < Power(4) && count < Power(4)
    ensures forall v | IsImage(hash, v, image) :: version == VERSION && count == |v.files| > 0
  {
    hide Text, Power, ConfigurationHash, FilesOk, IsNormal;
    Widths();
    forall v | IsImage(hash, v, image) ensures version == VERSION && count == |v.files| > 0 {
      ImageParts(hash, v, image);
      TextInjective(version, VERSION, 4);
      TextInjective(count, |v.files|, 4);
    }
  }

  lemma NextEntry(hash: Hasher, image: bytes, offset: nat, payload: nat, count: nat, files: seq<Proof>, ok: bool,
      file: Proof)
    requires payload + CHECKSUM_SIZE == |image| && offset == HEADER_SIZE + FilesSize(files) && |files| < count
    requires forall v | IsImage(hash, v, image) :: |v.files| == count && v.files[..|files|] == files
    requires if ok then EntryAt(image, offset, payload, |files|, file)
             else forall f :: !EntryAt(image, offset, payload, |files|, f)
    ensures forall v | IsImage(hash, v, image) :: ok && v.files[..|files| + 1] == files + [file]
  {
    hide IsImage, EntryAt, FilesSize;
    forall v | IsImage(hash, v, image) ensures ok && v.files[..|files| + 1] == files + [file] {
      EntryIsNext(hash, v, image, offset, payload, files);
      if ok {
        EntryOnce(image, offset, payload, |files|, v.files[|files|], file);
      }
    }
  }

  lemma EntryIsNext(hash: Hasher, v: Manifest, image: bytes, offset: nat, payload: nat, files: seq<Proof>)
    requires IsImage(hash, v, image) && |files| < |v.files| && v.files[..|files|] == files
    requires payload + CHECKSUM_SIZE == |image| && offset == HEADER_SIZE + FilesSize(files)
    ensures EntryAt(image, offset, payload, |files|, v.files[|files|])
            && v.files[..|files| + 1] == files + [v.files[|files|]]
  {
    hide IsImage, EntryAt, FilesSize, Text, HeaderText, PayloadText;
    EntryOfImage(hash, v, image, |files|);
    ImagePayload(hash, v, image);
    assert v.files[..|files| + 1] == v.files[..|files|] + [v.files[|files|]];
  }

  lemma ImagePayload(hash: Hasher, v: Manifest, image: bytes)
    requires IsImage(hash, v, image)
    ensures |image| == HEADER_SIZE + FilesSize(v.files) + CHECKSUM_SIZE
  {
    hide FilesSize, Text, ConfigurationHash, FilesOk, IsNormal;
    ImageParts(hash, v, image);
  }

  lemma EntryOnce(image: bytes, offset: nat, payload: nat, index: nat, f: Proof, g: Proof)
    requires EntryAt(image, offset, payload, index, f) && EntryAt(image, offset, payload, index, g)
    ensures f == g
  {
    hide Stands, Utf8.Walks;
    StandsOnce(image, offset, f, g);
  }

  lemma EntryAtText(image: bytes, offset: nat, payload: nat, index: nat, f: Proof)
    requires EntryAt(image, offset, payload, index, f) && payload <= |image|
    ensures FileOk(f, index) && Normal(f) == f && offset + ENTRY_SIZE + |f.path| <= payload
    ensures image[offset..offset + ENTRY_SIZE + |f.path|] == EntryText(f)
  {
    hide Stands, EntryText, FileOk;
    EntryStands(image, offset, f);
  }

  /** An entry that was read joins the files read before it. */
  lemma EntryJoins(image: bytes, offset: nat, payload: nat, files: seq<Proof>, file: Proof)
    requires EntryAt(image, offset, payload, |files|, file) && 80 <= offset && payload <= |image|
    requires image[..80] + FilesText(files) == image[..offset]
    ensures var next := offset + ENTRY_SIZE + |file.path|;
            && next <= payload && image[..80] + FilesText(files + [file]) == image[..next]
            && FilesSize(files + [file]) == FilesSize(files) + ENTRY_SIZE + |file.path|
    ensures FileOk(file, |files|) && Normal(file) == file
  {
    hide EntryAt, EntryText, FileOk, FilesText, FilesSize;
    EntryAtText(image, offset, payload, |files|, file);
    FilesTextSnoc(files, file);
    var next := offset + ENTRY_SIZE + |file.path|;
    assert image[..next] == image[..offset] + image[offset..next];
    assert image[..80] + (FilesText(files) + EntryText(file)) == (image[..80] + FilesText(files)) + EntryText(file);
  }

  /** What was read is the image's manifest exactly when it reaches the checksum with the right hash. */
  lemma DecodedWhole(hash: Hasher, image: bytes, m: Manifest, offset: nat, payload: nat)
    requires 184 <= |image| <= MAX_SIZE && payload == |image| - CHECKSUM_SIZE && 0 < |m.files| < 0x1_0000_0000
    requires image[..8] == MAGIC && image[8..12] == Text(VERSION, 4) && image[12..16] == Text(|m.files|, 4)
    requires m.configurationHash == image[16..48] && m.preprocessorHash == image[48..80]
    requires hash(image[..payload]) == image[payload..] && FilesOk(m.files) && IsNormal(m.files)
    requires offset == HEADER_SIZE + FilesSize(m.files) <= payload
             && image[..80] + FilesText(m.files) == image[..offset]
    requires forall v | IsImage(hash, v, image) :: |v.files| == |m.files| && v.files[..|m.files|] == m.files
    ensures Encodable(m.files)
    ensures offset == payload && ConfigurationHash(hash, m.files) == m.configurationHash ==> IsImage(hash, m, image)
    ensures !(offset == payload && ConfigurationHash(hash, m.files) == m.configurationHash)
            ==> forall v :: !IsImage(hash, v, image)
  {
    hide EntryText, Text, ConfigurationHash, HeaderText, FilesText, IsNormal;
    assert Encodable(m.files) by {
      forall i | 0 <= i < |m.files| ensures Utf8.Walks(m.files[i].path, 0) {
        assert FileOk(m.files[i], i);
      }
    }
    hide FilesOk;
    if offset == payload && ConfigurationHash(hash, m.files) == m.configurationHash {
      var head := image[..80];
      assert head[..8] == image[..8] && head[8..12] == image[8..12] && head[12..16] == image[12..16];
      assert head[16..48] == image[16..48] && head[48..80] == image[48..80];
      HeaderFromParts(m, head);
      assert image == image[..payload] + image[payload..];
    }
    forall v | IsImage(hash, v, image) ensures offset == payload
        && ConfigurationHash(hash, m.files) == m.configurationHash {
      ImageParts(hash, v, image);
      assert v.files[..|m.files|] == v.files;
    }
  }

  // ----- the two directions -----

  lemma {:induction false} NormalKeepsFiles(files: seq<Proof>)
    ensures FilesText(NormalFiles(files)) == FilesText(files)
            && FilesPreimage(NormalFiles(files)) == FilesPreimage(files)
    ensures FilesSize(NormalFiles(files)) == FilesSize(files)
    decreases |files|
  {
    hide Text;
    if files != [] {
      NormalKeepsFiles(files[1..]);
      assert NormalFiles(files)[1..] == NormalFiles(files[1..]);
      assert NormalFiles(files)[0] == Normal(files[0]);
    }
  }

  /** The image of a valid manifest is that of its normal form, which is what decoding gives back. */
  lemma NormalHasSameImage(hash: Hasher, m: Manifest)
    requires Valid(hash, m)
    ensures IsImage(hash, Normalised(m), ImageOf(hash, m))
  {
    hide FilesText, FilesPreimage, FilesSize, Text, PathOk;
    NormalKeepsFiles(m.files);
  }

  lemma HeadStands(s: bytes, f: Proof, rest: bytes)
    requires s == EntryText(f) + rest
    ensures Stands(s, 0, f) && rest == s[ENTRY_SIZE + |f.path|..]
  {
    hide EntryText, Stands;
    assert s[0..0 + ENTRY_SIZE + |f.path|] == EntryText(f);
    EntryStands(s, 0, f);
  }

  /** What an entry can hold without loss. */
  predicate Storable(f: Proof) {
    Normal(f) == f && |f.path| < 0x1_0000_0000 && (f.tokenAvailable ==> f.token.usn >= 0)
  }

  predicate AllStorable(files: seq<Proof>) { forall i | 0 <= i < |files| :: Storable(files[i]) }

  lemma {:induction false} SameFilesText(a: seq<Proof>, b: seq<Proof>, tail: bytes, end: bytes)
    requires FilesText(a) + tail == FilesText(b) + end && |a| == |b|
    requires AllStorable(a) && AllStorable(b)
    ensures a == b
    decreases |a|
  {
    hide EntryText, Stands, Normal;
    if a != [] {
      assert Storable(a[0]) && Storable(b[0]) && AllStorable(a[1..]) && AllStorable(b[1..]);
      hide AllStorable;
      var s := FilesText(a) + tail;
      var rest, more := FilesText(a[1..]) + tail, FilesText(b[1..]) + end;
      Associates(EntryText(a[0]), FilesText(a[1..]), tail);
      Associates(EntryText(b[0]), FilesText(b[1..]), end);
      assert s == EntryText(a[0]) + rest && s == EntryText(b[0]) + more;
      hide FilesText;
      HeadStands(s, a[0], rest);
      HeadStands(s, b[0], more);
      StandsOnce(s, 0, a[0], b[0]);
      SameFilesText(a[1..], b[1..], tail, end);
      assert a == [a[0]] + a[1..] && b == [b[0]] + b[1..];
    }
  }

  lemma FilesAreStorable(files: seq<Proof>)
    requires FilesOk(files) && IsNormal(files)
    ensures AllStorable(files)
  {
    forall i | 0 <= i < |files| ensures Storable(files[i]) {
      assert FileOk(files[i], i) && Normal(files[i]) == files[i];
    }
  }

  /** An image is that of one manifest only. */
  lemma ImageInjective(hash: Hasher, a: Manifest, b: Manifest, image: bytes)
    requires IsImage(hash, a, image) && IsImage(hash, b, image)
    ensures a == b
  {
    hide FilesText, FilesSize, Text, Utf8.Walks, ConfigurationHash, HeaderText;
    ImageParts(hash, a, image);
    ImageParts(hash, b, image);
    Widths();
    TextInjective(|a.files|, |b.files|, 4);
    var p := HEADER_SIZE + FilesSize(a.files);
    FilesTextSize(a.files);
    FilesTextSize(b.files);
    assert FilesText(a.files) == image[..p][HEADER_SIZE..] && FilesText(b.files) == image[..p][HEADER_SIZE..];
    FilesAreStorable(a.files);
    FilesAreStorable(b.files);
    SameFilesText(a.files, b.files, [], []);
  }

  /** Preparing, encoding and decoding a valid manifest gives it back, with unavailable tokens reset. */
  method EncodeThenDecode(hash: Hasher, m: Manifest) returns (result: Result, back: Manifest)
    ensures result == Success <==> Valid(hash, m)
    ensures result == Success ==> back == Normalised(m)
  {
    hide IsImage, ImageOf, FilesSize, FilesOk, ConfigurationHash;
    var prepared, layout := PrepareLayout(hash, m);
    if prepared != Success {
      return prepared, m;
    }
    var output := new byte[layout.size];
    ImageLength(hash, m);
    result := Encode(hash, m, layout, output);
    ghost var image := output[..];
    result, back := Decode(hash, output[..]);
    NormalHasSameImage(hash, m);
    if result == Success {
      ImageInjective(hash, back, Normalised(m), image);
    }
  }

  lemma ImageLength(hash: Hasher, m: Manifest)
    ensures |ImageOf(hash, m)| == ImageSize(m)
  {
    hide EntryText, HeaderText;
    FilesTextSize(m.files);
  }

  /** Whatever the decoder accepts can be prepared at its exact size, and encodes to the same bytes. */
  method DecodeThenEncode(hash: Hasher, image: bytes) returns (accepted: bool, again: bytes)
    requires |image| <= MAX_SIZE
    ensures accepted ==> again == image
    ensures accepted <==> exists m :: IsImage(hash, m, image)
  {
    hide ImageOf, FilesSize, FilesOk, ConfigurationHash;
    again := [];
    var result, m := Decode(hash, image);
    accepted := result == Success;
    if accepted {
      var prepared, layout := PrepareLayout(hash, m);
      ImageLength(hash, m);
      var output := new byte[layout.size];
      var encoded := Encode(hash, m, layout, output);
      assert prepared == Success && layout.size == |image| && encoded == Success;
      again := output[..];
    }
  }
}
