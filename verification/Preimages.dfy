/** The hashed preimages are injective in the fields they cover, so equal hashes stand for equal fields. */
module Preimages {
  import opened Bytes
  import opened LittleEndian
  import opened Manifest

  datatype Predefine = Predefine(name: bytes, replacement: bytes)

  const PREPROCESSOR_TAG: bytes := [0x43, 0x57, 0x50, 0x50, 0x48, 0x30, 0x30, 0x31]

  function PredefinePreimage(p: Predefine): (r: bytes) {
    Text(|p.name|, 8) + (p.name + (Text(|p.replacement|, 8) + p.replacement))
  }

  function PredefinesPreimage(ps: seq<Predefine>): (r: bytes) {
    if ps == [] then [] else PredefinePreimage(ps[0]) + PredefinesPreimage(ps[1..])
  }

  function PreprocessorPreimage(ps: seq<Predefine>): (r: bytes) {
    PREPROCESSOR_TAG + (Text(|ps|, 8) + PredefinesPreimage(ps))
  }

  method CalculatePreprocessorHash(hash: Hasher, predefines: seq<Predefine>) returns (digest: Digest)
    ensures digest == hash(PreprocessorPreimage(predefines))
  {
    var canonical := PREPROCESSOR_TAG + Text(|predefines|, 8);
    var i := 0;
    while i < |predefines|
      invariant 0 <= i <= |predefines|
      invariant canonical + PredefinesPreimage(predefines[i..]) == PreprocessorPreimage(predefines)
    {
      hide Text, PreprocessorPreimage, PredefinePreimage, PredefinesPreimage;
      var p := predefines[i];
      ghost var start, rest := canonical, PredefinesPreimage(predefines[i + 1..]);
      FirstPredefine(predefines[i..]);
      assert predefines[i..][1..] == predefines[i + 1..];
      PredefineAppends(start, p, rest);
      canonical := canonical + Text(|p.name|, 8);
      canonical := canonical + p.name;
      canonical := canonical + Text(|p.replacement|, 8);
      canonical := canonical + p.replacement;
      i := i + 1;
    }
    assert canonical == PreprocessorPreimage(predefines);
    digest := hash(canonical);
  }

  lemma FirstPredefine(ps: seq<Predefine>)
    requires ps != []
    ensures PredefinesPreimage(ps) == PredefinePreimage(ps[0]) + PredefinesPreimage(ps[1..])
  {
  }

  /** The four appends of one predefine put its preimage in front of the rest. */
  lemma PredefineAppends(start: bytes, p: Predefine, rest: bytes)
    ensures start + Text(|p.name|, 8) + p.name + Text(|p.replacement|, 8) + p.replacement + rest
         == start + (PredefinePreimage(p) + rest)
  {
    hide Text;
  }

  lemma SplitAt(a: bytes, b: bytes, x: bytes, y: bytes)
    requires a + x == b + y && |a| == |b|
    ensures a == b && x == y
  {
    assert (a + x)[..|a|] == a && (b + y)[..|b|] == b;
    assert (a + x)[|a|..] == x && (b + y)[|b|..] == y;
  }

  predicate Short(s: bytes) { |s| < 0x1_0000_0000_0000_0000 }

  /** A length in front of a string tells where it ends. */
  lemma Delimited(a: bytes, b: bytes, x: bytes, y: bytes)
    requires Short(a) && Short(b) && Text(|a|, 8) + (a + x) == Text(|b|, 8) + (b + y)
    ensures a == b && x == y
  {
    hide Text, Power;
    Widths();
    SplitAt(Text(|a|, 8), Text(|b|, 8), a + x, b + y);
    TextInjective(|a|, |b|, 8);
    SplitAt(a, b, x, y);
  }

  lemma {:induction false} SamePredefines(a: seq<Predefine>, b: seq<Predefine>)
    requires PredefinesPreimage(a) == PredefinesPreimage(b) && |a| == |b|
    requires forall p | p in a || p in b :: Short(p.name) && Short(p.replacement)
    ensures a == b
    decreases |a|
  {
    hide Text, Short;
    if a != [] {
      var p, q := a[0], b[0];
      var x, y := PredefinesPreimage(a[1..]), PredefinesPreimage(b[1..]);
      var s, t := Text(|p.replacement|, 8) + (p.replacement + x), Text(|q.replacement|, 8) + (q.replacement + y);
      assert PredefinePreimage(p) + x == Text(|p.name|, 8) + (p.name + s);
      assert PredefinePreimage(q) + y == Text(|q.name|, 8) + (q.name + t);
      Delimited(p.name, q.name, s, t);
      Delimited(p.replacement, q.replacement, x, y);
      SamePredefines(a[1..], b[1..]);
      assert a == [p] + a[1..] && b == [q] + b[1..];
    }
  }

  /** Preprocessing environments with one preimage are one environment. */
  lemma PreprocessorPreimageInjective(a: seq<Predefine>, b: seq<Predefine>)
    requires PreprocessorPreimage(a) == PreprocessorPreimage(b)
    requires |a| < 0x1_0000_0000_0000_0000 && |b| < 0x1_0000_0000_0000_0000
    requires forall p | p in a || p in b :: Short(p.name) && Short(p.replacement)
    ensures a == b
  {
    hide Text, Power, PredefinesPreimage;
    Widths();
    SplitAt(PREPROCESSOR_TAG, PREPROCESSOR_TAG, Text(|a|, 8) + PredefinesPreimage(a),
        Text(|b|, 8) + PredefinesPreimage(b));
    SplitAt(Text(|a|, 8), Text(|b|, 8), PredefinesPreimage(a), PredefinesPreimage(b));
    TextInjective(|a|, |b|, 8);
    SamePredefines(a, b);
  }

  /** The fields of a file the configuration hash covers: everything but its change token. */
  function Covered(f: Proof): (r: (U32, bool, bytes, Digest)) { (f.declaring, f.absolute, f.path, f.contentHash) }

  lemma SameFile(f: Proof, g: Proof, x: bytes, y: bytes)
    requires FilePreimage(f) + x == FilePreimage(g) + y && Short(f.path) && Short(g.path)
    ensures Covered(f) == Covered(g) && x == y
  {
    hide Text, Power, TypeCode, Short;
    Widths();
    var s, t := f.path + (f.contentHash + x), g.path + (g.contentHash + y);
    assert FilePreimage(f) + x == Text(f.declaring, 4) + (Text(TypeCode(f), 4) + (Text(|f.path|, 8) + s));
    assert FilePreimage(g) + y == Text(g.declaring, 4) + (Text(TypeCode(g), 4) + (Text(|g.path|, 8) + t));
    SplitAt(Text(f.declaring, 4), Text(g.declaring, 4), Text(TypeCode(f), 4) + (Text(|f.path|, 8) + s),
      Text(TypeCode(g), 4) + (Text(|g.path|, 8) + t));
    SplitAt(Text(TypeCode(f), 4), Text(TypeCode(g), 4), Text(|f.path|, 8) + s, Text(|g.path|, 8) + t);
    TextInjective(f.declaring, g.declaring, 4);
    TypeCodeInjective(f, g);
    Delimited(f.path, g.path, f.contentHash + x, g.contentHash + y);
    SplitAt(f.contentHash, g.contentHash, x, y);
  }

  lemma TypeCodeInjective(f: Proof, g: Proof)
    requires Text(TypeCode(f), 4) == Text(TypeCode(g), 4)
    ensures f.absolute == g.absolute
  {
    hide Text, Power;
    Widths();
    TextInjective(TypeCode(f), TypeCode(g), 4);
  }

  lemma {:induction false} SameFiles(a: seq<Proof>, b: seq<Proof>)
    requires FilesPreimage(a) == FilesPreimage(b) && |a| == |b|
    requires (forall f | f in a :: Short(f.path)) && (forall f | f in b :: Short(f.path))
    ensures forall i | 0 <= i < |a| :: Covered(a[i]) == Covered(b[i])
    decreases |a|
  {
    hide FilePreimage, Covered, Short;
    if a != [] {
      SameFile(a[0], b[0], FilesPreimage(a[1..]), FilesPreimage(b[1..]));
      SameFiles(a[1..], b[1..]);
      forall i | 0 <= i < |a| ensures Covered(a[i]) == Covered(b[i]) {
        if i > 0 {
          assert a[i] == a[1..][i - 1] && b[i] == b[1..][i - 1];
        }
      }
    }
  }

  /** Configurations with one preimage declare the same files, in the same order, with the same content. */
  lemma ConfigurationPreimageInjective(a: seq<Proof>, b: seq<Proof>)
    requires ConfigurationPreimage(a) == ConfigurationPreimage(b)
    requires |a| < 0x1_0000_0000_0000_0000 && |b| < 0x1_0000_0000_0000_0000
    requires (forall f | f in a :: Short(f.path)) && (forall f | f in b :: Short(f.path))
    ensures |a| == |b| && forall i | 0 <= i < |a| :: Covered(a[i]) == Covered(b[i])
  {
    hide Text, Power, FilesPreimage, Short;
    Widths();
    SplitAt(CONFIGURATION_TAG, CONFIGURATION_TAG, Text(|a|, 8) + FilesPreimage(a), Text(|b|, 8) + FilesPreimage(b));
    SplitAt(Text(|a|, 8), Text(|b|, 8), FilesPreimage(a), FilesPreimage(b));
    TextInjective(|a|, |b|, 8);
    SameFiles(a, b);
  }

  /** No configuration preimage is a preprocessor preimage. */
  lemma TagsDiffer(a: seq<Proof>, b: seq<Predefine>)
    ensures ConfigurationPreimage(a) != PreprocessorPreimage(b)
  {
    hide Text;
    assert ConfigurationPreimage(a)[2] == 0x43 && PreprocessorPreimage(b)[2] == 0x50;
  }

  // ----- what a preimage stands for -----

  datatype Hashed = Configuration(files: seq<Proof>) | Preprocessor(predefines: seq<Predefine>)

  function PreimageOf(h: Hashed): (r: bytes) {
    match h
    case Configuration(files) => ConfigurationPreimage(files)
    case Preprocessor(predefines) => PreprocessorPreimage(predefines)
  }

  /** Counts and lengths fit the eight bytes they are written in. */
  predicate Fits(h: Hashed) {
    match h
    case Configuration(files) => |files| < 0x1_0000_0000_0000_0000 && forall f | f in files :: Short(f.path)
    case Preprocessor(predefines) =>
      |predefines| < 0x1_0000_0000_0000_0000 && forall p | p in predefines :: Short(p.name) && Short(p.replacement)
  }

  /** One kind of hash over the same covered fields, in the same order. */
  predicate SameFields(a: Hashed, b: Hashed) {
    match (a, b)
    case (Configuration(x), Configuration(y)) => |x| == |y| && forall i | 0 <= i < |x| :: Covered(x[i]) == Covered(y[i])
    case (Preprocessor(x), Preprocessor(y)) => x == y
    case _ => false
  }

  lemma {:induction false} CoveredDecides(a: seq<Proof>, b: seq<Proof>)
    requires |a| == |b| && forall i | 0 <= i < |a| :: Covered(a[i]) == Covered(b[i])
    ensures FilesPreimage(a) == FilesPreimage(b)
    decreases |a|
  {
    hide FilePreimage;
    if a != [] {
      assert FilePreimage(a[0]) == FilePreimage(b[0]) by {
        OneDecides(a[0], b[0]);
      }
      CoveredDecides(a[1..], b[1..]);
    }
  }

  lemma OneDecides(f: Proof, g: Proof)
    requires Covered(f) == Covered(g)
    ensures FilePreimage(f) == FilePreimage(g)
  {
    hide Text;
  }

  /** Two preimages are equal exactly when they are of one kind and their covered fields are the same. */
  lemma PreimageExactly(a: Hashed, b: Hashed)
    requires Fits(a) && Fits(b)
    ensures PreimageOf(a) == PreimageOf(b) <==> SameFields(a, b)
  {
    hide ConfigurationPreimage, PreprocessorPreimage, Covered, Short;
    match (a, b)
    case (Configuration(x), Configuration(y)) =>
      if PreimageOf(a) == PreimageOf(b) {
        ConfigurationPreimageInjective(x, y);
      }
      if SameFields(a, b) {
        CoveredDecides(x, y);
        assert ConfigurationPreimage(x) == ConfigurationPreimage(y) by {
          SamePreimage(x, y);
        }
      }
    case (Preprocessor(x), Preprocessor(y)) =>
      if PreimageOf(a) == PreimageOf(b) {
        PreprocessorPreimageInjective(x, y);
      }
    case (Configuration(x), Preprocessor(y)) => TagsDiffer(x, y);
    case (Preprocessor(x), Configuration(y)) => TagsDiffer(y, x);
  }

  lemma SamePreimage(a: seq<Proof>, b: seq<Proof>)
    requires |a| == |b| && FilesPreimage(a) == FilesPreimage(b)
    ensures ConfigurationPreimage(a) == ConfigurationPreimage(b)
  {
    hide Text;
  }

  // ----- the fields of a preimage by their places -----

  predicate Tagged(s: bytes, tag: string) {
    |s| >= 8 && |tag| == 8 && forall i | 0 <= i < 8 :: s[i] == tag[i] as int
  }

  /** A preimage begins with the name and version of its format and the number of its parts. */
  lemma PreimagesBegin(files: seq<Proof>, predefines: seq<Predefine>)
    requires |files| < 0x1_0000_0000_0000_0000 && |predefines| < 0x1_0000_0000_0000_0000
    ensures var c, p := ConfigurationPreimage(files), PreprocessorPreimage(predefines);
            && |c| >= 16 && Tagged(c, "CWCFG002") && Value(c[8..16]) == |files|
            && |p| >= 16 && Tagged(p, "CWPPH001") && Value(p[8..16]) == |predefines|
  {
    hide Text, FilesPreimage, PredefinesPreimage;
    Widths();
    ValueOfText(|files|, 8);
    ValueOfText(|predefines|, 8);
    assert ConfigurationPreimage(files)[8..16] == Text(|files|, 8);
    assert PreprocessorPreimage(predefines)[8..16] == Text(|predefines|, 8);
    TagsAre();
  }

  lemma TagsAre()
    ensures Tagged(CONFIGURATION_TAG, "CWCFG002") && Tagged(PREPROCESSOR_TAG, "CWPPH001")
  {
  }

  /** Then come, for each file, who declared it, the type and size of its path, the path and the hash of its content. */
  lemma FileLayout(f: Proof)
    requires |f.path| < 0x1_0000_0000_0000_0000
    ensures var s, end := FilePreimage(f), 16 + |f.path|;
            && |s| == end + HASH_SIZE && Value(s[0..4]) == f.declaring
            && Value(s[4..8]) == (if f.absolute then 1 else 0) && Value(s[8..16]) == |f.path|
            && s[16..end] == f.path && s[end..] == f.contentHash
  {
    hide Text, Power;
    Widths();
    ValueOfText(f.declaring, 4);
    ValueOfText(if f.absolute then 1 else 0, 4);
    ValueOfText(|f.path|, 8);
    var s := FilePreimage(f);
    assert s[0..4] == Text(f.declaring, 4) && s[4..8] == Text(if f.absolute then 1 else 0, 4);
    assert s[8..16] == Text(|f.path|, 8);
  }

  /** And for each predefine the size and the text of its name and of its replacement. */
  lemma PredefineLayout(p: Predefine)
    requires |p.name| < 0x1_0000_0000_0000_0000 && |p.replacement| < 0x1_0000_0000_0000_0000
    ensures var s, next := PredefinePreimage(p), 8 + |p.name|;
            && |s| == next + 8 + |p.replacement| && Value(s[0..8]) == |p.name| && s[8..next] == p.name
            && Value(s[next..next + 8]) == |p.replacement| && s[next + 8..] == p.replacement
  {
    hide Text, Power;
    Widths();
    ValueOfText(|p.name|, 8);
    ValueOfText(|p.replacement|, 8);
    var s, next := PredefinePreimage(p), 8 + |p.name|;
    assert s[0..8] == Text(|p.name|, 8) && s[next..next + 8] == Text(|p.replacement|, 8);
  }
}
