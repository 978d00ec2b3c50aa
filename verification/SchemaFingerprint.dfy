/**
 fingerprintGeneratedDirectory (scripts/app-server-schema.ts): every generated file,
 in the order of its path, feeds `path NUL text NUL` to a digest. SHA-256 is taken as
 the identity on what it is fed.
 */
module SchemaFingerprint {
  import opened Utf16
  import opened Wrappers
  import opened Json
  import opened CanonicalJson
  import opened Sorting
  import opened Joining
  import GeneratedTypeScript

  datatype Format = JsonFormat | TypeScriptFormat

  datatype FingerprintError = NoFiles | InvalidJsonFile(path: Text)

  datatype Fingerprint = Fingerprint(fileCount: nat, preimage: Text)

  const NUL: CodeUnit := 0

  /** The incremental hash object: it holds what it has been fed. */
  class Digest {
    var fed: Text

    constructor ()
      ensures fed == []
    {
      fed := [];
    }

    method Update(t: Text)
      modifies this
      ensures fed == old(fed) + t
    {
      fed := fed + t;
    }
  }

  /** A directory maps relative paths to raw texts; a walk lists each path once, in any order. */
  ghost predicate Walks(walk: seq<Text>, files: map<Text, Text>) {
    Distinct(walk) && forall p :: p in walk <==> p in files
  }

  predicate NulFree(t: Text) {
    Without(t, NUL)
  }

  /** The text that stands for a file, or None when JSON.parse throws. */
  function NormalizedFile(format: Format, raw: Text): Option<Text> {
    match format
    case TypeScriptFormat => Some(GeneratedTypeScript.Normalize(raw))
    case JsonFormat =>
      match Parse(raw)
      case None => None
      case Some(document) => Some(StableJson(document))
  }

  function Frame(path: Text, text: Text): Text {
    path + ([NUL] + (text + [NUL]))
  }

  /** What the digest holds after the given files, or the first file that does not parse. */
  function Feed(format: Format, files: map<Text, Text>, paths: seq<Text>): (r: Result<Text, FingerprintError>)
    requires forall p :: p in paths ==> p in files
    ensures r.Err? ==> r.error.InvalidJsonFile?
  {
    if paths == [] then Ok([])
    else
      match NormalizedFile(format, files[paths[0]])
      case None => Err(InvalidJsonFile(paths[0]))
      case Some(text) => Prefixed(Frame(paths[0], text), Feed(format, files, paths[1..]))
  }

  function Prefixed(prefix: Text, r: Result<Text, FingerprintError>): Result<Text, FingerprintError> {
    match r
    case Ok(text) => Ok(prefix + text)
    case Err(e) => Err(e)
  }

  lemma PrefixedNothing(r: Result<Text, FingerprintError>)
    ensures Prefixed([], r) == r
  {
    if r.Ok? {
      assert [] + r.value == r.value;
    }
  }

  lemma PrefixedTwice(x: Text, y: Text, r: Result<Text, FingerprintError>)
    ensures Prefixed(x, Prefixed(y, r)) == Prefixed(x + y, r)
  {
    if r.Ok? {
      assert x + (y + r.value) == (x + y) + r.value;
    }
  }

  function FingerprintOf(format: Format, files: map<Text, Text>, sorted: seq<Text>): Result<Fingerprint, FingerprintError>
    requires forall p :: p in sorted ==> p in files
  {
    if |sorted| == 0 then Err(NoFiles)
    else
      match Feed(format, files, sorted)
      case Ok(fed) => Ok(Fingerprint(|sorted|, fed))
      case Err(e) => Err(e)
  }

  lemma SortKeepsPaths(walk: seq<Text>)
    ensures forall p :: p in SortBy(CodeUnitLeq, walk) <==> p in walk
  {
    forall p ensures p in SortBy(CodeUnitLeq, walk) <==> p in walk {
      InMultiset(walk, p);
      InMultiset(SortBy(CodeUnitLeq, walk), p);
    }
  }

  method FingerprintGeneratedDirectory(format: Format, files: map<Text, Text>, walk: seq<Text>)
    returns (r: Result<Fingerprint, FingerprintError>)
    requires Walks(walk, files)
    ensures (forall p :: p in SortBy(CodeUnitLeq, walk) ==> p in files) &&
            r == FingerprintOf(format, files, SortBy(CodeUnitLeq, walk))
  {
    var sorted := SortBy(CodeUnitLeq, walk);
    SortKeepsPaths(walk);
    if |sorted| == 0 {
      return Err(NoFiles);
    }
    var fed := FeedFiles(format, files, sorted);
    match fed
    case Ok(preimage) => r := Ok(Fingerprint(|sorted|, preimage));
    case Err(e) => r := Err(e);
  }

  /** The loop over the sorted files, stopping at the first one that does not parse. */
  method FeedFiles(format: Format, files: map<Text, Text>, sorted: seq<Text>) returns (r: Result<Text, FingerprintError>)
    requires forall p :: p in sorted ==> p in files
    ensures r == Feed(format, files, sorted)
  {
    var digest := new Digest();
    assert sorted[0..] == sorted;
    PrefixedNothing(Feed(format, files, sorted));
    for i := 0 to |sorted|
      invariant Feed(format, files, sorted) == Prefixed(digest.fed, Feed(format, files, sorted[i..]))
    {
      var path := sorted[i];
      var normalized := NormalizedFile(format, files[path]);
      FeedFrom(format, files, sorted, i, digest.fed);
      if normalized.None? {
        return Err(InvalidJsonFile(path));
      }
      ghost var before := digest.fed;
      digest.Update(path);
      digest.Update([NUL]);
      digest.Update(normalized.value);
      digest.Update([NUL]);
      FrameInSteps(before, path, normalized.value);
    }
    assert sorted[|sorted|..] == [];
    assert digest.fed + [] == digest.fed;
    return Ok(digest.fed);
  }

  lemma FrameInSteps(before: Text, path: Text, text: Text)
    ensures before + path + [NUL] + text + [NUL] == before + Frame(path, text)
  {
  }

  /** One turn of the loop: the file at i either ends the run or adds its frame. */
  lemma FeedFrom(format: Format, files: map<Text, Text>, sorted: seq<Text>, i: nat, fed: Text)
    requires i < |sorted| && forall p :: p in sorted ==> p in files
    ensures
      var rest := Prefixed(fed, Feed(format, files, sorted[i..]));
      match NormalizedFile(format, files[sorted[i]])
      case None => rest == Err(InvalidJsonFile(sorted[i]))
      case Some(text) => rest == Prefixed(fed + Frame(sorted[i], text), Feed(format, files, sorted[i + 1..]))
  {
    assert sorted[i..][0] == sorted[i] && sorted[i..][1..] == sorted[i + 1..];
    var normalized := NormalizedFile(format, files[sorted[i]]);
    if normalized.Some? {
      PrefixedTwice(fed, Frame(sorted[i], normalized.value), Feed(format, files, sorted[i + 1..]));
    }
  }

  // ------------------------------------------------------ order independence

  lemma SortedWalkUnique(a: seq<Text>, b: seq<Text>)
    requires Distinct(a) && Distinct(b)
    ensures SortBy(CodeUnitLeq, a) == SortBy(CodeUnitLeq, b) <==> (forall p :: p in a <==> p in b)
  {
    CodeUnitOrder();
    SortCanonical(CodeUnitLeq, a, b);
    if forall p :: p in a <==> p in b {
      SameElementsSameMultiset(a, b);
    } else if multiset(a) == multiset(b) {
      forall p ensures p in a <==> p in b {
        InMultiset(a, p);
        InMultiset(b, p);
      }
    }
  }

  /** The whole outcome, errors included, is the same for every enumeration of the directory. */
  lemma EnumerationIndependent(format: Format, files: map<Text, Text>, walk: seq<Text>, walk': seq<Text>)
    requires Walks(walk, files) && Walks(walk', files)
    ensures SortBy(CodeUnitLeq, walk) == SortBy(CodeUnitLeq, walk')
    ensures forall p :: p in SortBy(CodeUnitLeq, walk) ==> p in files
    ensures FingerprintOf(format, files, SortBy(CodeUnitLeq, walk)) == FingerprintOf(format, files, SortBy(CodeUnitLeq, walk'))
  {
    SortedWalkUnique(walk, walk');
    SortKeepsPaths(walk);
  }

  // ------------------------------------------------------------- what is fed

  lemma SortedPathsIncrease(walk: seq<Text>)
    requires Distinct(walk)
    ensures
      var sorted := SortBy(CodeUnitLeq, walk);
      && |sorted| == |walk|
      && forall i, j :: 0 <= i < j < |sorted| ==> Precedes(sorted[i], sorted[j])
  {
    var sorted := SortBy(CodeUnitLeq, walk);
    CodeUnitOrder();
    SortBySorted(CodeUnitLeq, walk);
    forall i, j | 0 <= i < j < |sorted| ensures Precedes(sorted[i], sorted[j]) {
      if sorted[i] == sorted[j] {
        TwiceInMultiset(sorted, i, j);
        OnceInMultiset(walk, sorted[i]);
      }
      CodeUnitLeqIs(sorted[i], sorted[j]);
    }
  }

  /** The file parses, or need not. */
  predicate Readable(format: Format, raw: Text) {
    format == JsonFormat ==> Parse(raw).Some?
  }

  /** Each path before the canonical document, or the normalised text, of its file. */
  function PathsAndTexts(format: Format, files: map<Text, Text>, paths: seq<Text>): (parts: seq<Text>)
    requires forall p :: p in paths ==> p in files && Readable(format, files[p])
    ensures |parts| == 2 * |paths|
  {
    if paths == [] then []
    else
      var raw := files[paths[0]];
      assert paths[0] in paths && Readable(format, raw);
      [ paths[0],
        if format == JsonFormat then StableJson(Parse(raw).value) else GeneratedTypeScript.Normalize(raw) ]
      + PathsAndTexts(format, files, paths[1..])
  }

  lemma JoinTwoMore(p: Text, t: Text, rest: seq<Text>)
    ensures Join([p, t] + rest, NUL) + [NUL]
         == Frame(p, t) + (if rest == [] then [] else Join(rest, NUL) + [NUL])
  {
    var all := [p, t] + rest;
    assert all[1..] == [t] + rest && ([t] + rest)[1..] == rest;
    if rest == [] {
      assert [t] + rest == [t];
    }
  }

  /** Every part is followed by one NUL, paths and texts in turn. */
  lemma {:induction false} FeedIs(format: Format, files: map<Text, Text>, paths: seq<Text>)
    requires forall p :: p in paths ==> p in files && Readable(format, files[p])
    ensures Feed(format, files, paths) ==
      Ok(if paths == [] then [] else Join(PathsAndTexts(format, files, paths), 0) + [0])
  {
    if paths != [] {
      FeedIs(format, files, paths[1..]);
      var parts, rest := PathsAndTexts(format, files, paths), PathsAndTexts(format, files, paths[1..]);
      assert parts == [parts[0], parts[1]] + rest;
      JoinTwoMore(parts[0], parts[1], rest);
    }
  }

  /** Or the first path in order whose file does not parse. */
  lemma {:induction false} FeedFails(format: Format, files: map<Text, Text>, paths: seq<Text>, i: nat)
    requires (forall p :: p in paths ==> p in files) && i < |paths|
    requires !Readable(format, files[paths[i]])
    requires forall j :: 0 <= j < i ==> Readable(format, files[paths[j]])
    ensures Feed(format, files, paths) == Err(InvalidJsonFile(paths[i]))
  {
    if i > 0 {
      FeedFails(format, files, paths[1..], i - 1);
    }
  }

  /** The fingerprint of a readable directory: how many files, and their paths in increasing order with their texts. */
  lemma FingerprintIs(format: Format, files: map<Text, Text>, walk: seq<Text>) returns (sorted: seq<Text>)
    requires Walks(walk, files) && files.Keys != {}
    requires forall p :: p in files ==> Readable(format, files[p])
    ensures forall p :: p in sorted <==> p in files
    ensures forall p :: p in SortBy(CodeUnitLeq, walk) ==> p in files
    ensures |sorted| == |walk| && forall i, j :: 0 <= i < j < |sorted| ==> Precedes(sorted[i], sorted[j])
    ensures FingerprintOf(format, files, SortBy(CodeUnitLeq, walk))
         == Ok(Fingerprint(|walk|, Join(PathsAndTexts(format, files, sorted), 0) + [0]))
  {
    sorted := SortBy(CodeUnitLeq, walk);
    SortKeepsPaths(walk);
    SortedPathsIncrease(walk);
    FeedIs(format, files, sorted);
    var p :| p in files;
    assert p in sorted;
  }

  // ------------------------------------------------------------- unique framing

  /** The file has a text, and no NUL occurs in its path or its text. */
  predicate Framed(format: Format, path: Text, raw: Text) {
    NulFree(path) && NormalizedFile(format, raw).Some? && NulFree(NormalizedFile(format, raw).value)
  }

  ghost predicate Framable(format: Format, files: map<Text, Text>) {
    forall p :: p in files ==> Framed(format, p, files[p])
  }

  lemma FeedStep(format: Format, files: map<Text, Text>, paths: seq<Text>)
    requires Framable(format, files) && paths != [] && forall p :: p in paths ==> p in files
    requires Feed(format, files, paths[1..]).Ok?
    ensures
      var text := NormalizedFile(format, files[paths[0]]).value;
      Feed(format, files, paths) == Ok(paths[0] + ([NUL] + (text + ([NUL] + Feed(format, files, paths[1..]).value))))
  {
    var text := NormalizedFile(format, files[paths[0]]).value;
    var rest := Feed(format, files, paths[1..]).value;
    Assoc(paths[0], [NUL] + (text + [NUL]), rest);
    Assoc([NUL], text + [NUL], rest);
    Assoc(text, [NUL], rest);
  }

  lemma {:induction false} FeedSucceeds(format: Format, files: map<Text, Text>, paths: seq<Text>)
    requires Framable(format, files) && forall p :: p in paths ==> p in files
    ensures Feed(format, files, paths).Ok?
    ensures paths != [] ==> Feed(format, files, paths).value != []
  {
    if paths != [] {
      FeedSucceeds(format, files, paths[1..]);
      FeedStep(format, files, paths);
    }
  }

  /** The fed text gives back the list of paths and the text of each. */
  lemma {:induction false} FeedSplits(
      format: Format, a: map<Text, Text>, pa: seq<Text>, b: map<Text, Text>, pb: seq<Text>)
    requires Framable(format, a) && Framable(format, b)
    requires forall p :: p in pa ==> p in a
    requires forall p :: p in pb ==> p in b
    requires Feed(format, a, pa) == Feed(format, b, pb)
    ensures pa == pb
    ensures forall p :: p in pa ==> NormalizedFile(format, a[p]) == NormalizedFile(format, b[p])
    decreases |pa|
  {
    FeedSucceeds(format, a, pa);
    FeedSucceeds(format, b, pb);
    if pa != [] && pb != [] {
      FeedSucceeds(format, a, pa[1..]);
      FeedSucceeds(format, b, pb[1..]);
      FeedStep(format, a, pa);
      FeedStep(format, b, pb);
      var x, y := NormalizedFile(format, a[pa[0]]).value, NormalizedFile(format, b[pb[0]]).value;
      var rx, ry := Feed(format, a, pa[1..]).value, Feed(format, b, pb[1..]).value;
      SplitUnique(NUL, pa[0], x + ([NUL] + rx), pb[0], y + ([NUL] + ry));
      SplitUnique(NUL, x, rx, y, ry);
      FeedSplits(format, a, pa[1..], b, pb[1..]);
      assert pa == [pa[0]] + pa[1..] && pb == [pb[0]] + pb[1..];
    }
  }

  lemma {:induction false} FeedCongruent(
      format: Format, a: map<Text, Text>, b: map<Text, Text>, paths: seq<Text>)
    requires forall p :: p in paths ==> p in a && p in b && NormalizedFile(format, a[p]) == NormalizedFile(format, b[p])
    ensures Feed(format, a, paths) == Feed(format, b, paths)
  {
    if paths != [] {
      FeedCongruent(format, a, b, paths[1..]);
    }
  }

  /** The same paths with the same normalised texts. */
  ghost predicate SameFiles(format: Format, a: map<Text, Text>, b: map<Text, Text>) {
    a.Keys == b.Keys && forall p :: p in a ==> NormalizedFile(format, a[p]) == NormalizedFile(format, b[p])
  }

  lemma SortedPathsAgree(a: map<Text, Text>, walkA: seq<Text>, b: map<Text, Text>, walkB: seq<Text>)
    requires Walks(walkA, a) && Walks(walkB, b)
    ensures SortBy(CodeUnitLeq, walkA) == SortBy(CodeUnitLeq, walkB) <==> a.Keys == b.Keys
  {
    SortedWalkUnique(walkA, walkB);
    assert forall p :: p in walkA <==> p in a.Keys;
    assert forall p :: p in walkB <==> p in b.Keys;
  }

  lemma SortedPathsListed(files: map<Text, Text>, walk: seq<Text>)
    requires Walks(walk, files)
    ensures forall p :: p in SortBy(CodeUnitLeq, walk) <==> p in files
  {
    SortKeepsPaths(walk);
  }

  // ----------------------------------------------- one side decides about NULs

  function NulCount(t: Text): nat {
    if t == [] then 0 else (if t[0] == NUL then 1 else 0) + NulCount(t[1..])
  }

  lemma {:induction false} NulCountConcat(x: Text, y: Text)
    ensures NulCount(x + y) == NulCount(x) + NulCount(y)
  {
    if x == [] {
      assert x + y == y;
    } else {
      assert (x + y)[1..] == x[1..] + y;
      NulCountConcat(x[1..], y);
    }
  }

  lemma {:induction false} NulCountZero(t: Text)
    ensures NulCount(t) == 0 <==> NulFree(t)
  {
    if t != [] {
      NulCountZero(t[1..]);
      assert forall i :: 1 <= i < |t| ==> t[i] == t[1..][i - 1];
    }
  }

  lemma FrameNuls(path: Text, text: Text)
    ensures NulCount(Frame(path, text)) >= 2
    ensures NulCount(Frame(path, text)) == 2 <==> NulFree(path) && NulFree(text)
  {
    NulCountConcat(path, [NUL] + (text + [NUL]));
    NulCountConcat([NUL], text + [NUL]);
    NulCountConcat(text, [NUL]);
    NulCountZero(path);
    NulCountZero(text);
  }

  ghost predicate AllFramed(format: Format, files: map<Text, Text>, paths: seq<Text>)
    requires forall p :: p in paths ==> p in files
  {
    forall p :: p in paths ==> Framed(format, p, files[p])
  }

  /** A feed has two NULs for each file, and no more exactly when nothing in it holds a NUL. */
  lemma {:induction false} FeedNuls(format: Format, files: map<Text, Text>, paths: seq<Text>)
    requires (forall p :: p in paths ==> p in files) && Feed(format, files, paths).Ok?
    ensures NulCount(Feed(format, files, paths).value) >= 2 * |paths|
    ensures NulCount(Feed(format, files, paths).value) == 2 * |paths| <==> AllFramed(format, files, paths)
  {
    if paths != [] {
      var text := NormalizedFile(format, files[paths[0]]).value;
      var rest := Feed(format, files, paths[1..]).value;
      FeedNuls(format, files, paths[1..]);
      FrameNuls(paths[0], text);
      NulCountConcat(Frame(paths[0], text), rest);
      FramedTail(format, files, paths);
    }
  }

  lemma FramedTail(format: Format, files: map<Text, Text>, paths: seq<Text>)
    requires (forall p :: p in paths ==> p in files) && paths != []
    ensures AllFramed(format, files, paths) <==>
      Framed(format, paths[0], files[paths[0]]) && AllFramed(format, files, paths[1..])
  {
    assert forall p :: p in paths <==> p == paths[0] || p in paths[1..];
  }

  /** A directory with the feed of a framable one of as many files is framable. */
  lemma EqualFeedFramable(
      format: Format, a: map<Text, Text>, pa: seq<Text>, b: map<Text, Text>, pb: seq<Text>)
    requires Framable(format, a)
    requires forall p :: p in pa <==> p in a
    requires forall p :: p in pb <==> p in b
    requires |pa| == |pb| && Feed(format, a, pa) == Feed(format, b, pb)
    ensures Framable(format, b)
  {
    FeedSucceeds(format, a, pa);
    FeedNuls(format, a, pa);
    FeedNuls(format, b, pb);
    assert AllFramed(format, b, pb);
  }

  /**
   Against a directory without NUL the fingerprint decides: any other directory has the
   same one exactly when both agree as maps from path to normalised text. A collision
   needs a NUL on both sides. Where there is none on either, the digest decides alone.
   */
  lemma FingerprintDecides(
      format: Format, a: map<Text, Text>, walkA: seq<Text>, b: map<Text, Text>, walkB: seq<Text>)
    requires Walks(walkA, a) && Walks(walkB, b) && Framable(format, a)
    ensures forall p :: p in SortBy(CodeUnitLeq, walkA) ==> p in a
    ensures forall p :: p in SortBy(CodeUnitLeq, walkB) ==> p in b
    ensures FingerprintOf(format, a, SortBy(CodeUnitLeq, walkA)) == FingerprintOf(format, b, SortBy(CodeUnitLeq, walkB))
       <==> SameFiles(format, a, b)
    ensures Framable(format, b) ==>
      (Feed(format, a, SortBy(CodeUnitLeq, walkA)) == Feed(format, b, SortBy(CodeUnitLeq, walkB)) <==> SameFiles(format, a, b))
  {
    var pa, pb := SortBy(CodeUnitLeq, walkA), SortBy(CodeUnitLeq, walkB);
    SortedPathsListed(a, walkA);
    SortedPathsListed(b, walkB);
    SortedPathsAgree(a, walkA, b, walkB);
    FingerprintsDecide(format, a, pa, b, pb);
    if Framable(format, b) {
      FeedDecides(format, a, pa, b, pb);
    }
  }

  lemma FingerprintsDecide(
      format: Format, a: map<Text, Text>, pa: seq<Text>, b: map<Text, Text>, pb: seq<Text>)
    requires Framable(format, a)
    requires forall p :: p in pa <==> p in a
    requires forall p :: p in pb <==> p in b
    requires pa == pb <==> a.Keys == b.Keys
    ensures FingerprintOf(format, a, pa) == FingerprintOf(format, b, pb) <==> SameFiles(format, a, b)
  {
    FeedSucceeds(format, a, pa);
    if FingerprintOf(format, a, pa) == FingerprintOf(format, b, pb) {
      if pa == [] {
        assert pb == [];
      } else {
        EqualFeedFramable(format, a, pa, b, pb);
        FeedDecides(format, a, pa, b, pb);
      }
    }
    if SameFiles(format, a, b) {
      FeedCongruent(format, a, b, pa);
    }
  }

  lemma FeedDecides(
      format: Format, a: map<Text, Text>, pa: seq<Text>, b: map<Text, Text>, pb: seq<Text>)
    requires Framable(format, a) && Framable(format, b)
    requires forall p :: p in pa <==> p in a
    requires forall p :: p in pb <==> p in b
    requires pa == pb <==> a.Keys == b.Keys
    ensures Feed(format, a, pa) == Feed(format, b, pb) <==> SameFiles(format, a, b)
  {
    if Feed(format, a, pa) == Feed(format, b, pb) {
      FeedSplits(format, a, pa, b, pb);
    }
    if SameFiles(format, a, b) {
      FeedCongruent(format, a, b, pa);
    }
  }

  /** Every file is JSON under a path without NUL. */
  predicate JsonDirectory(files: map<Text, Text>) {
    forall p :: p in files ==> NulFree(p) && Parse(files[p]).Some?
  }

  /** The canonical documents of a directory: what the schema lock is meant to pin. */
  function Documents(files: map<Text, Text>): map<Text, Tree>
    requires JsonDirectory(files)
  {
    map p | p in files :: Meaning(Parse(files[p]).value)
  }

  lemma ParseWellKeyed(raw: Text)
    requires Parse(raw).Some?
    ensures WellKeyed(Parse(raw).value)
  {
    BuildWellKeyed(ReadValue(raw).value);
  }

  /**
   The JSON fingerprint pins the map from path to document, and nothing else: white
   space, key order and enumeration order do not matter. A directory with another file
   in it, one that does not parse or has a NUL in its path, never shares it.
   */
  lemma JsonFingerprintDecides(a: map<Text, Text>, walkA: seq<Text>, b: map<Text, Text>, walkB: seq<Text>)
    requires Walks(walkA, a) && Walks(walkB, b) && JsonDirectory(a)
    ensures forall p :: p in SortBy(CodeUnitLeq, walkA) ==> p in a
    ensures forall p :: p in SortBy(CodeUnitLeq, walkB) ==> p in b
    ensures FingerprintOf(JsonFormat, a, SortBy(CodeUnitLeq, walkA)) == FingerprintOf(JsonFormat, b, SortBy(CodeUnitLeq, walkB))
       <==> JsonDirectory(b) && Documents(a) == Documents(b)
    ensures JsonDirectory(b) ==>
      (Feed(JsonFormat, a, SortBy(CodeUnitLeq, walkA)) == Feed(JsonFormat, b, SortBy(CodeUnitLeq, walkB))
       <==> Documents(a) == Documents(b))
  {
    JsonDirectoryFramable(a);
    FingerprintDecides(JsonFormat, a, walkA, b, walkB);
    if JsonDirectory(b) {
      JsonDirectoryFramable(b);
      DocumentsDecide(a, b);
    } else {
      OtherDirectory(a, b);
    }
  }

  lemma OtherDirectory(a: map<Text, Text>, b: map<Text, Text>)
    requires JsonDirectory(a) && !JsonDirectory(b)
    ensures !SameFiles(JsonFormat, a, b)
  {
    var p :| p in b && !(NulFree(p) && Parse(b[p]).Some?);
    if p in a {
      assert NormalizedFile(JsonFormat, a[p]).Some?;
    }
  }

  lemma DocumentDecides(raw: Text, raw': Text)
    requires Parse(raw).Some? && Parse(raw').Some?
    ensures NormalizedFile(JsonFormat, raw) == NormalizedFile(JsonFormat, raw')
       <==> Meaning(Parse(raw).value) == Meaning(Parse(raw').value)
  {
    ParseWellKeyed(raw);
    ParseWellKeyed(raw');
    StableJsonDecides(Parse(raw).value, Parse(raw').value);
  }

  lemma DocumentAt(files: map<Text, Text>, p: Text)
    requires JsonDirectory(files) && p in files
    ensures p in Documents(files) && Documents(files)[p] == Meaning(Parse(files[p]).value) && Parse(files[p]).Some?
  {
  }

  lemma DocumentsDecideAt(a: map<Text, Text>, b: map<Text, Text>, p: Text)
    requires JsonDirectory(a) && JsonDirectory(b) && p in a && p in b
    ensures p in Documents(a) && p in Documents(b)
    ensures NormalizedFile(JsonFormat, a[p]) == NormalizedFile(JsonFormat, b[p]) <==> Documents(a)[p] == Documents(b)[p]
  {
    DocumentAt(a, p);
    DocumentAt(b, p);
    DocumentDecides(a[p], b[p]);
  }

  /** Two tables that tell files apart as their normalised texts do. */
  lemma SameFilesAt(a: map<Text, Text>, b: map<Text, Text>, x: map<Text, Tree>, y: map<Text, Tree>)
    requires x.Keys == a.Keys && y.Keys == b.Keys
    requires forall p :: p in a && p in b ==>
      (NormalizedFile(JsonFormat, a[p]) == NormalizedFile(JsonFormat, b[p]) <==> x[p] == y[p])
    ensures x == y <==> SameFiles(JsonFormat, a, b)
  {
    if SameFiles(JsonFormat, a, b) {
      assert forall p :: p in x ==> p in a && x[p] == y[p];
    }
  }

  lemma DocumentsDecide(a: map<Text, Text>, b: map<Text, Text>)
    requires JsonDirectory(a) && JsonDirectory(b)
    ensures Documents(a) == Documents(b) <==> SameFiles(JsonFormat, a, b)
  {
    var x, y := Documents(a), Documents(b);
    forall p | p in a && p in b
      ensures NormalizedFile(JsonFormat, a[p]) == NormalizedFile(JsonFormat, b[p]) <==> x[p] == y[p]
    {
      DocumentsDecideAt(a, b, p);
    }
    SameFilesAt(a, b, x, y);
  }

  lemma JsonDirectoryFramable(files: map<Text, Text>)
    requires JsonDirectory(files)
    ensures Framable(JsonFormat, files)
  {
    forall p | p in files ensures Framed(JsonFormat, p, files[p]) {
      ParseWellKeyed(files[p]);
      StableJsonReadsBack(Parse(files[p]).value);
    }
  }

  // --------------------------------------------- TypeScript text that has NULs

  const PATH_A: Text := [0x61]
  const PATH_B: Text := [0x62]
  const PATH_C: Text := [0x63]
  const LINE_X: Text := [0x78, 0x0A]
  const LINE_Z: Text := [0x7A, 0x0A]
  const LINES_XBY: Text := [0x78, 0x0A, NUL, 0x62, NUL, 0x79, 0x0A]
  const LINES_YCZ: Text := [0x79, 0x0A, NUL, 0x63, NUL, 0x7A, 0x0A]

  /** The fingerprint of a directory of two TypeScript files. */
  function TwoFiles(p: Text, x: Text, q: Text, y: Text): Result<Fingerprint, FingerprintError> {
    var files := map[p := x, q := y];
    SortKeepsPaths([p, q]);
    FingerprintOf(TypeScriptFormat, files, SortBy(CodeUnitLeq, [p, q]))
  }

  lemma TwoFilesFed(p: Text, x: Text, q: Text, y: Text)
    requires p != q && CodeUnitLeq(p, q) && GeneratedTypeScript.Normal(x) && GeneratedTypeScript.Normal(y)
    ensures TwoFiles(p, x, q, y) == Ok(Fingerprint(2, Frame(p, x) + Frame(q, y)))
  {
    var files := map[p := x, q := y];
    SortTwo(p, q);
    GeneratedTypeScript.NormalIsFixed(x);
    GeneratedTypeScript.NormalIsFixed(y);
    assert [p, q][1..] == [q] && [q][1..] == [];
    assert Feed(TypeScriptFormat, files, [q]) == Ok(Frame(q, y) + []);
    assert Frame(q, y) + [] == Frame(q, y);
  }

  lemma SameFrames()
    ensures Frame(PATH_A, LINES_XBY) + Frame(PATH_C, LINE_Z) == Frame(PATH_A, LINE_X) + Frame(PATH_B, LINES_YCZ)
  {
    var first: Text := [0x61, NUL, 0x78, 0x0A, NUL];
    var second: Text := [0x62, NUL, 0x79, 0x0A, NUL];
    var third: Text := [0x63, NUL, 0x7A, 0x0A, NUL];
    assert Frame(PATH_A, LINES_XBY) == first + second;
    assert Frame(PATH_C, LINE_Z) == third;
    assert Frame(PATH_A, LINE_X) == first;
    assert Frame(PATH_B, LINES_YCZ) == second + third;
    Assoc(first, second, third);
  }

  lemma LinesAreNormal()
    ensures GeneratedTypeScript.Normal(LINES_XBY) && GeneratedTypeScript.Normal(LINES_YCZ)
    ensures GeneratedTypeScript.Normal(LINE_X) && GeneratedTypeScript.Normal(LINE_Z)
    ensures CodeUnitLeq(PATH_A, PATH_B) && CodeUnitLeq(PATH_A, PATH_C)
  {
  }

  /**
   With a NUL on both sides TypeScript texts can collide: these two directories of two
   files differ in names and normalised texts and share one fingerprint, file count included.
   */
  lemma TypeScriptNulCollision()
    ensures TwoFiles(PATH_A, LINES_XBY, PATH_C, LINE_Z) == TwoFiles(PATH_A, LINE_X, PATH_B, LINES_YCZ)
    ensures NormalizedFile(TypeScriptFormat, LINES_XBY) != NormalizedFile(TypeScriptFormat, LINE_X)
    ensures PATH_B != PATH_C
  {
    LinesAreNormal();
    TwoFilesFed(PATH_A, LINES_XBY, PATH_C, LINE_Z);
    TwoFilesFed(PATH_A, LINE_X, PATH_B, LINES_YCZ);
    SameFrames();
    GeneratedTypeScript.NormalIsFixed(LINES_XBY);
    GeneratedTypeScript.NormalIsFixed(LINE_X);
  }

  lemma SortTwo(p: Text, q: Text)
    requires CodeUnitLeq(p, q)
    ensures SortBy(CodeUnitLeq, [p, q]) == [p, q]
  {
    assert [p, q][1..] == [q] && [q][1..] == [];
    assert SortBy(CodeUnitLeq, [q]) == [q];
  }

  // ------------------------------------------------------------ exact key sets

  /** assertExactKeys: compares the NUL-joined sorted keys; false stands for the thrown error. */
  predicate AssertExactKeys(actual: seq<Text>, expected: seq<Text>) {
    Join(SortBy(CodeUnitLeq, actual), NUL) == Join(SortBy(CodeUnitLeq, expected), NUL)
  }

  /**
   What it accepts, whatever the actual keys: the sorted keys, cut at every NUL, must be
   the sorted expected list, which is free of NUL and neither empty nor the empty key.
   */
  lemma AssertExactKeysAccepts(actual: seq<Text>, expected: seq<Text>)
    requires forall k :: k in expected ==> NulFree(k)
    requires expected != [] && expected != [[]]
    ensures AssertExactKeys(actual, expected) <==> Pieces(SortBy(CodeUnitLeq, actual), NUL) == SortBy(CodeUnitLeq, expected)
  {
    var x, y := SortBy(CodeUnitLeq, actual), SortBy(CodeUnitLeq, expected);
    SortKeepsPaths(expected);
    JoinPieces(x, NUL);
    JoinInjective(Pieces(x, NUL), y, NUL);
    assert |y| == |expected| && (|y| == 1 ==> y[0] in y);
    assert |expected| == 1 ==> expected == [expected[0]];
  }

  /** So it accepts exactly the expected set of keys, as long as no actual key has a NUL … */
  lemma AssertExactKeysDecides(actual: seq<Text>, expected: seq<Text>)
    requires Distinct(actual) && Distinct(expected)
    requires forall k :: k in expected ==> NulFree(k)
    requires expected != [] && expected != [[]]
    ensures AssertExactKeys(actual, expected) && (forall k :: k in actual ==> NulFree(k))
       <==> forall k :: k in actual <==> k in expected
  {
    AssertExactKeysAccepts(actual, expected);
    SortKeepsPaths(actual);
    SortedWalkUnique(actual, expected);
    if forall k :: k in actual ==> NulFree(k) {
      PiecesOfWhole(SortBy(CodeUnitLeq, actual), NUL);
    }
  }

  /** … and otherwise may accept another one: here one key for the two of a locked fingerprint. */
  lemma OneKeyForTwo()
    ensures
      var joined := Ascii("fileCount") + ([NUL] + Ascii("sha256"));
      && AssertExactKeys([joined], [Ascii("fileCount"), Ascii("sha256")])
      && joined != Ascii("fileCount") && joined != Ascii("sha256")
    ensures AssertExactKeys([], [[]])
  {
    var p, q := Ascii("fileCount"), Ascii("sha256");
    var joined := p + ([NUL] + q);
    assert p[0] == 0x66 && q[0] == 0x73;
    SortTwo(p, q);
    JoinPair(p, q);
    SortOne(joined);
    SortOne([]);
    assert |joined| > |p| && |joined| > |q|;
  }

  lemma SortOne(t: Text)
    ensures SortBy(CodeUnitLeq, [t]) == [t]
  {
    var rest: seq<Text> := [t][1..];
    assert rest == [];
  }

  lemma JoinPair(p: Text, q: Text)
    ensures Join([p, q], NUL) == p + ([NUL] + q)
  {
    assert [p, q][1..] == [q];
  }
}
