/**
 The signed manifest: its structure, its JSON form and the rules of internal/wire/manifest.go.
 Hashing, signatures, base64 and RFC 3339 are functions given from outside.
 */
module Manifests {
  import opened Basics
  import opened Decimal
  import opened Json
  import opened JsonText
  import opened Jcs
  import Utf8

  const MAX_MANIFEST_BYTES := 1048576
  const MAX_FILE_COUNT := 1024
  const MAX_BLOB_BYTES := 33554432
  const MAX_BUNDLE_BYTES := 67108864
  const MAX_PATH_LENGTH := 512

  datatype FileEntry = FileEntry(path: string, sha256: string, size: int)

  datatype Manifest = Manifest(
    memberId: string,
    version: nat,
    timestamp: string,
    files: seq<FileEntry>,
    metadata: map<string, string>)

  datatype SignedManifest = SignedManifest(manifest: Manifest, signature: string)

  type Key = Bytes

  const SIGNATURE_SIZE := 64
  const PUBLIC_KEY_SIZE := 32

  datatype Primitives = Primitives(
    publicKey: Key -> Key,
    sign: (Key, Bytes) -> Bytes,
    verify: (Key, Bytes, Bytes) -> bool,
    encode64: Bytes -> string,
    decode64: string -> Option<Bytes>,
    sha256: Bytes -> string,
    rfc3339: string -> bool)

  // What is assumed of the primitives: no more than that honest use of them works.
  ghost predicate Lawful(p: Primitives) {
    && (forall k: Key, msg: Bytes :: p.verify(p.publicKey(k), msg, p.sign(k, msg)))
    && (forall k: Key, msg: Bytes :: |p.sign(k, msg)| == SIGNATURE_SIZE)
    && (forall b: Bytes :: p.decode64(p.encode64(b)) == Some(b))
    && (forall b: Bytes :: ValidSHA256Hex(p.sha256(b)))
  }

  /* Structural validity */

  predicate IsIdChar(c: char) {
    'a' <= c <= 'z' || '0' <= c <= '9'
  }

  predicate ValidMemberID(id: string) {
    && 1 <= |id| <= 63
    && IsIdChar(id[0])
    && forall i | 0 < i < |id| :: IsIdChar(id[i]) || id[i] == '-'
  }

  predicate ValidSHA256Hex(s: string) {
    |s| == 64 && forall i | 0 <= i < |s| :: '0' <= s[i] <= '9' || 'a' <= s[i] <= 'f'
  }

  // strings.Split at slashes: always at least one segment.
  function Segments(p: string): (r: seq<string>)
    ensures |r| > 0
  {
    if p == "" then [""]
    else
      var rest := Segments(p[1..]);
      if p[0] == '/' then [""] + rest else [[p[0]] + rest[0]] + rest[1..]
  }

  // p[i..j] is what stands between two slashes, or between a slash and an end of p.
  predicate SegmentAt(p: string, i: nat, j: nat) {
    && i <= j <= |p| && (i == 0 || p[i - 1] == '/') && (j == |p| || p[j] == '/')
    && forall k | i <= k < j :: p[k] != '/'
  }

  function EndOf(p: string, at: seq<nat>, k: nat): int
    requires k < |at|
  {
    if k + 1 < |at| then at[k + 1] - 1 else |p|
  }

  ghost predicate PlaceOf(p: string, at: seq<nat>, segments: seq<string>, k: nat)
    requires k < |at| == |segments|
  {
    0 <= EndOf(p, at, k) && SegmentAt(p, at[k], EndOf(p, at, k)) && segments[k] == p[at[k]..EndOf(p, at, k)]
  }

  predicate StartsAt(p: string, i: nat) {
    i <= |p| && (i == 0 || p[i - 1] == '/')
  }

  // at gives the place of each segment, and every start of a segment is there.
  ghost predicate Places(p: string, at: seq<nat>, segments: seq<string>) {
    && |at| == |segments| > 0 && at[0] == 0
    && (forall k | 0 <= k < |at| :: PlaceOf(p, at, segments, k))
    && forall i | StartsAt(p, i) :: i in at
  }

  lemma {:induction false} PlaceShift(p: string, i: nat, j: nat)
    requires p != "" && SegmentAt(p[1..], i, j) && (i > 0 || p[0] == '/')
    ensures SegmentAt(p, i + 1, j + 1) && p[i + 1..j + 1] == p[1..][i..j]
  {
    assert forall k | i + 1 <= k < j + 1 :: p[k] == p[1..][k - 1];
  }

  function Shifted(at: seq<nat>): seq<nat> {
    seq(|at|, k requires 0 <= k < |at| => at[k] + 1)
  }

  lemma {:induction false} StartShift(p: string, rest: seq<nat>, i: nat)
    requires p != "" && (forall j | StartsAt(p[1..], j) :: j in rest) && StartsAt(p, i) && i > 0
    ensures i in Shifted(rest)
  {
    assert StartsAt(p[1..], i - 1);
    var k :| 0 <= k < |rest| && rest[k] == i - 1;
    assert Shifted(rest)[k] == i;
  }

  // at is rest moved by one place, behind a new segment or with the first one made longer.
  ghost predicate Moved(p: string, rest: seq<nat>, at: seq<nat>, skip: nat) {
    && p != "" && Places(p[1..], rest, Segments(p[1..])) && |at| == |rest| + skip && at[0] == 0
    && (forall k | 0 < k < |at| && k >= skip :: at[k] == rest[k - skip] + 1)
    && (forall k | skip <= k < |at| :: EndOf(p, at, k) == EndOf(p[1..], rest, k - skip) + 1)
  }

  lemma {:induction false} PlaceAfterSlash(p: string, rest: seq<nat>, at: seq<nat>, k: nat)
    requires Moved(p, rest, at, 1) && p[0] == '/' && 0 < k < |at| == |Segments(p)|
    ensures PlaceOf(p, at, Segments(p), k)
  {
    assert PlaceOf(p[1..], rest, Segments(p[1..]), k - 1);
    PlaceShift(p, rest[k - 1], EndOf(p[1..], rest, k - 1));
  }

  lemma {:induction false} PlacesAfterSlash(p: string, rest: seq<nat>)
    requires p != "" && p[0] == '/' && Places(p[1..], rest, Segments(p[1..]))
    ensures Places(p, [0] + Shifted(rest), Segments(p))
  {
    var at := [0] + Shifted(rest);
    forall k | 0 <= k < |at| ensures PlaceOf(p, at, Segments(p), k) {
      if k > 0 {
        PlaceAfterSlash(p, rest, at, k);
      }
    }
    forall i | StartsAt(p, i) ensures i in at {
      if i > 0 {
        StartShift(p, rest, i);
      }
    }
  }

  lemma {:induction false} FirstPlace(p: string, j: nat)
    requires p != "" && p[0] != '/' && SegmentAt(p[1..], 0, j)
    ensures SegmentAt(p, 0, j + 1) && p[..j + 1] == [p[0]] + p[1..][..j]
  {
    assert forall k | 1 <= k < j + 1 :: p[k] == p[1..][k - 1];
  }

  lemma {:induction false} PlaceWithin(p: string, rest: seq<nat>, at: seq<nat>, k: nat)
    requires Moved(p, rest, at, 0) && p[0] != '/' && k < |at| == |Segments(p)|
    ensures PlaceOf(p, at, Segments(p), k)
  {
    assert PlaceOf(p[1..], rest, Segments(p[1..]), k);
    if k > 0 {
      assert PlaceOf(p[1..], rest, Segments(p[1..]), k - 1);
      PlaceShift(p, rest[k], EndOf(p[1..], rest, k));
    } else {
      FirstPlace(p, EndOf(p[1..], rest, 0));
    }
  }

  lemma {:induction false} PlacesWithin(p: string, rest: seq<nat>)
    requires p != "" && p[0] != '/' && Places(p[1..], rest, Segments(p[1..]))
    ensures Places(p, [0] + Shifted(rest)[1..], Segments(p))
  {
    var at := [0] + Shifted(rest)[1..];
    forall k | 0 <= k < |at| ensures PlaceOf(p, at, Segments(p), k) {
      PlaceWithin(p, rest, at, k);
    }
    forall i | StartsAt(p, i) ensures i in at {
      if i > 0 {
        StartShift(p, rest, i);
        assert i != 1;
      }
    }
  }

  lemma {:induction false} SegmentsAre(p: string) returns (at: seq<nat>)
    ensures Places(p, at, Segments(p))
  {
    if p == "" {
      at := [0];
    } else {
      var rest := SegmentsAre(p[1..]);
      if p[0] == '/' {
        at := [0] + Shifted(rest);
        PlacesAfterSlash(p, rest);
      } else {
        at := [0] + Shifted(rest)[1..];
        PlacesWithin(p, rest);
      }
    }
  }

  predicate IsControl(c: char) {
    c < ' ' || c == '\U{7F}'
  }

  predicate LegalSegment(s: string) {
    s != "" && s != "." && s != ".."
  }

  predicate LegalPath(p: string) {
    && p != "" && |Utf8.Encode(p)| <= MAX_PATH_LENGTH
    && p[0] != '/' && '\\' !in p
    && (forall c | c in p :: !IsControl(c))
    && forall s | s in Segments(p) :: LegalSegment(s)
  }

  // Legality read off the characters.
  lemma {:induction false} PathIsLegal(p: string)
    ensures LegalPath(p) <==>
      && p != "" && |Utf8.Encode(p)| <= 512
      && (forall c | c in p :: c >= ' ' && c != '\U{7F}' && c != '\\')
      && forall i: nat, j: nat | SegmentAt(p, i, j) :: p[i..j] != "" && p[i..j] != "." && p[i..j] != ".."
  {
    var at := SegmentsAre(p);
    forall i: nat, j: nat | SegmentAt(p, i, j) ensures p[i..j] in Segments(p) {
      assert StartsAt(p, i);
      var k :| 0 <= k < |at| && at[k] == i;
      assert PlaceOf(p, at, Segments(p), k);
      OneEnd(p, i, j, EndOf(p, at, k));
    }
    forall s | s in Segments(p) ensures exists i: nat, j: nat :: SegmentAt(p, i, j) && p[i..j] == s {
      var k :| 0 <= k < |at| && Segments(p)[k] == s;
      assert PlaceOf(p, at, Segments(p), k);
    }
    if p != "" && p[0] == '/' {
      assert SegmentAt(p, 0, 0) && p[0..0] == "";
    }
  }

  lemma {:induction false} OneEnd(p: string, i: nat, j: nat, j': nat)
    requires SegmentAt(p, i, j) && SegmentAt(p, i, j')
    ensures j == j'
  {
  }

  method HasControl(p: string) returns (found: bool)
    ensures found <==> exists c :: c in p && IsControl(c)
  {
    for i := 0 to |p|
      invariant forall j | 0 <= j < i :: !IsControl(p[j])
    {
      if IsControl(p[i]) {
        return true;
      }
    }
    return false;
  }

  method AllLegal(segments: seq<string>) returns (ok: bool)
    ensures ok <==> forall s | s in segments :: LegalSegment(s)
  {
    for i := 0 to |segments|
      invariant forall j | 0 <= j < i :: LegalSegment(segments[j])
    {
      if !LegalSegment(segments[i]) {
        return false;
      }
    }
    return true;
  }

  method ValidBundlePath(p: string) returns (ok: bool)
    ensures ok == LegalPath(p)
    ensures ok <==>
      && p != "" && |Utf8.Encode(p)| <= 512
      && (forall c | c in p :: c >= ' ' && c != '\U{7F}' && c != '\\')
      && forall i: nat, j: nat | SegmentAt(p, i, j) :: p[i..j] != "" && p[i..j] != "." && p[i..j] != ".."
  {
    PathIsLegal(p);
    if p == "" || |Utf8.Encode(p)| > MAX_PATH_LENGTH {
      return false;
    }
    if p[0] == '/' || '\\' in p {
      return false;
    }
    var control := HasControl(p);
    if control {
      return false;
    }
    ok := AllLegal(Segments(p));
  }

  predicate ValidFile(f: FileEntry) {
    LegalPath(f.path) && ValidSHA256Hex(f.sha256) && 0 <= f.size <= MAX_BLOB_BYTES
  }

  function TotalSize(files: seq<FileEntry>): int {
    if files == [] then 0 else TotalSize(files[..|files| - 1]) + files[|files| - 1].size
  }

  predicate DistinctPaths(files: seq<FileEntry>) {
    forall i, j | 0 <= i < j < |files| :: files[i].path != files[j].path
  }

  predicate ValidFiles(files: seq<FileEntry>) {
    (forall i | 0 <= i < |files| :: ValidFile(files[i])) && DistinctPaths(files)
  }

  predicate ValidEntry(key: string, value: string) {
    1 <= |Utf8.Encode(key)| <= 128 && |Utf8.Encode(value)| <= 4096
  }

  predicate ValidMetadata(metadata: map<string, string>) {
    && |metadata| <= 64
    && forall k | k in metadata :: ValidEntry(k, metadata[k])
  }

  predicate ValidManifest(p: Primitives, m: Manifest) {
    && ValidMemberID(m.memberId)
    && 1 <= m.version <= MAX_SAFE_INTEGER
    && p.rfc3339(m.timestamp)
    && 1 <= |m.files| <= MAX_FILE_COUNT
    && ValidFiles(m.files)
    && TotalSize(m.files) <= MAX_BUNDLE_BYTES
    && ValidMetadata(m.metadata)
  }

  datatype Invalid =
    | BadMemberID
    | BadVersion
    | BadTimestamp
    | NoFiles
    | TooManyFiles
    | BadPath(path: string)
    | DuplicatePath(path: string)
    | BadHash(path: string)
    | BadSize(path: string)
    | TooLarge(total: int)
    | BadMetadata(key: string)
    | TooMuchMetadata

  // What each report says about the manifest.
  ghost predicate Justified(p: Primitives, m: Manifest, e: Invalid) {
    match e
    case BadMemberID => !ValidMemberID(m.memberId)
    case BadVersion => m.version < 1 || m.version > MAX_SAFE_INTEGER
    case BadTimestamp => !p.rfc3339(m.timestamp)
    case NoFiles => m.files == []
    case TooManyFiles => |m.files| > MAX_FILE_COUNT
    case BadPath(path) => !LegalPath(path) && exists f :: f in m.files && f.path == path
    case DuplicatePath(path) =>
      exists i, j :: 0 <= i < j < |m.files| && m.files[i].path == path && m.files[j].path == path
    case BadHash(path) => exists f :: f in m.files && f.path == path && !ValidSHA256Hex(f.sha256)
    case BadSize(path) => exists f :: f in m.files && f.path == path && !(0 <= f.size <= MAX_BLOB_BYTES)
    case TooLarge(total) => total == TotalSize(m.files) > MAX_BUNDLE_BYTES
    case BadMetadata(key) => key in m.metadata && !ValidEntry(key, m.metadata[key])
    case TooMuchMetadata => |m.metadata| > 64
  }

  function PathsOf(files: seq<FileEntry>): set<string> {
    set f | f in files :: f.path
  }

  lemma {:induction false} ExtendFiles(files: seq<FileEntry>, i: nat)
    requires i < |files|
    ensures PathsOf(files[..i + 1]) == PathsOf(files[..i]) + {files[i].path}
    ensures TotalSize(files[..i + 1]) == TotalSize(files[..i]) + files[i].size
    ensures ValidFiles(files[..i]) && ValidFile(files[i]) && files[i].path !in PathsOf(files[..i])
      ==> ValidFiles(files[..i + 1])
  {
    assert files[..i + 1] == files[..i] + [files[i]];
    AppendPath(files[..i], files[i]);
    if ValidFiles(files[..i]) && ValidFile(files[i]) && files[i].path !in PathsOf(files[..i]) {
      AppendFile(files[..i], files[i]);
    }
    assert files[..i + 1][..i] == files[..i];
  }

  lemma {:induction false} AppendPath(files: seq<FileEntry>, f: FileEntry)
    ensures PathsOf(files + [f]) == PathsOf(files) + {f.path}
  {
    assert forall g :: g in files + [f] <==> g in files || g == f;
    forall path | path in PathsOf(files) + {f.path} ensures path in PathsOf(files + [f]) {
      if path in PathsOf(files) {
        var g :| g in files && g.path == path;
        assert g in files + [f];
      } else {
        assert f in files + [f];
      }
    }
  }

  lemma {:induction false} AppendFile(files: seq<FileEntry>, f: FileEntry)
    requires ValidFile(f) && f.path !in PathsOf(files) && ValidFiles(files)
    ensures ValidFiles(files + [f])
  {
    forall j | 0 <= j < |files| ensures files[j].path in PathsOf(files) {
      assert files[j] in files;
    }
  }

  // The loop over the files, with its set of paths and its running total.
  method ValidateFiles(p: Primitives, m: Manifest) returns (r: Option<Invalid>, total: int)
    ensures r.None? ==> ValidFiles(m.files) && total == TotalSize(m.files)
    ensures r.Some? ==> Justified(p, m, r.value)
  {
    var seen: set<string> := {};
    total := 0;
    for i := 0 to |m.files|
      invariant seen == PathsOf(m.files[..i])
      invariant ValidFiles(m.files[..i])
      invariant total == TotalSize(m.files[..i])
    {
      var f := m.files[i];
      assert f in m.files;
      var legal := ValidBundlePath(f.path);
      if !legal {
        return Some(BadPath(f.path)), total;
      }
      if f.path in seen {
        ghost var g :| g in m.files[..i] && g.path == f.path;
        ghost var j :| 0 <= j < i && m.files[j] == g;
        return Some(DuplicatePath(f.path)), total;
      }
      seen := seen + {f.path};
      if !ValidSHA256Hex(f.sha256) {
        return Some(BadHash(f.path)), total;
      }
      if f.size < 0 || f.size > MAX_BLOB_BYTES {
        return Some(BadSize(f.path)), total;
      }
      total := total + f.size;
      ExtendFiles(m.files, i);
    }
    assert m.files[..|m.files|] == m.files;
    return None, total;
  }

  method ValidateMetadata(p: Primitives, m: Manifest) returns (r: Option<Invalid>)
    ensures r.None? <==> ValidMetadata(m.metadata)
    ensures r.Some? ==> Justified(p, m, r.value)
  {
    var left := m.metadata.Keys;
    while left != {}
      invariant left <= m.metadata.Keys
      invariant forall k | k in m.metadata.Keys - left :: ValidEntry(k, m.metadata[k])
      decreases |left|
    {
      var k :| k in left;
      if |Utf8.Encode(k)| == 0 || |Utf8.Encode(k)| > 128 || |Utf8.Encode(m.metadata[k])| > 4096 {
        return Some(BadMetadata(k));
      }
      left := left - {k};
    }
    if |m.metadata| > 64 {
      return Some(TooMuchMetadata);
    }
    return None;
  }

  // A report is never wrong.
  lemma {:induction false} JustifiedMeansInvalid(p: Primitives, m: Manifest, e: Invalid)
    requires Justified(p, m, e)
    ensures !ValidManifest(p, m)
  {
    match e
    case BadPath(path) =>
      var f :| f in m.files && f.path == path;
      assert !ValidFile(f);
    case DuplicatePath(path) =>
      assert !DistinctPaths(m.files);
    case BadHash(path) =>
      var f :| f in m.files && f.path == path && !ValidSHA256Hex(f.sha256);
      assert !ValidFile(f);
    case BadSize(path) =>
      var f :| f in m.files && f.path == path && !(0 <= f.size <= MAX_BLOB_BYTES);
      assert !ValidFile(f);
    case _ =>
  }

  lemma {:induction false} MemberIDMeans(id: string)
    ensures ValidMemberID(id) <==>
      && 1 <= |id| <= 63 && id[0] != '-'
      && forall c | c in id :: 'a' <= c <= 'z' || '0' <= c <= '9' || c == '-'
  {
    assert forall i | 0 <= i < |id| :: id[i] in id;
  }

  lemma {:induction false} HexMeans(s: string)
    ensures IsHexOf32Bytes(s) <==> ValidSHA256Hex(s)
  {
    assert forall i | 0 <= i < |s| :: s[i] in s;
  }

  // Structural validity spelled out, limits and all. ValidBundlePath spells out the paths.
  lemma {:induction false} ValidMeans(p: Primitives, m: Manifest)
    ensures ValidManifest(p, m) <==>
      && 1 <= |m.memberId| <= 63 && m.memberId[0] != '-'
      && (forall c | c in m.memberId :: 'a' <= c <= 'z' || '0' <= c <= '9' || c == '-')
      && 1 <= m.version <= 9007199254740991
      && p.rfc3339(m.timestamp)
      && 1 <= |m.files| <= 1024
      && (forall f | f in m.files :: LegalPath(f.path) && IsHexOf32Bytes(f.sha256) && 0 <= f.size <= 33554432)
      && (forall i, j | 0 <= i < j < |m.files| :: m.files[i].path != m.files[j].path)
      && TotalSize(m.files) <= 67108864
      && |m.metadata| <= 64
      && (forall k | k in m.metadata :: 1 <= |Utf8.Encode(k)| <= 128 && |Utf8.Encode(m.metadata[k])| <= 4096)
  {
    MemberIDMeans(m.memberId);
    assert forall i | 0 <= i < |m.files| :: m.files[i] in m.files;
    forall f | f in m.files ensures IsHexOf32Bytes(f.sha256) <==> ValidSHA256Hex(f.sha256) {
      HexMeans(f.sha256);
    }
  }

  predicate IsHexOf32Bytes(s: string) {
    |s| == 64 && forall c | c in s :: '0' <= c <= '9' || 'a' <= c <= 'f'
  }

  method Validate(p: Primitives, m: Manifest) returns (r: Option<Invalid>)
    ensures r.None? <==> ValidManifest(p, m)
    ensures r.Some? ==> Justified(p, m, r.value)
  {
    if !ValidMemberID(m.memberId) {
      return Some(BadMemberID);
    }
    if m.version < 1 || m.version > MAX_SAFE_INTEGER {
      return Some(BadVersion);
    }
    if !p.rfc3339(m.timestamp) {
      return Some(BadTimestamp);
    }
    if |m.files| == 0 {
      return Some(NoFiles);
    }
    if |m.files| > MAX_FILE_COUNT {
      return Some(TooManyFiles);
    }
    var total;
    r, total := ValidateFiles(p, m);
    if r.Some? {
      JustifiedMeansInvalid(p, m, r.value);
      return;
    }
    if total > MAX_BUNDLE_BYTES {
      return Some(TooLarge(total));
    }
    r := ValidateMetadata(p, m);
  }

  /* Encoding: struct fields in declaration order, map entries in whatever order is given */

  function FileTree(f: FileEntry): Tree {
    TObj([Member("path", TStr(f.path)), Member("sha256", TStr(f.sha256)), Member("size", TNum(FormatInt(f.size)))])
  }

  function FileTrees(files: seq<FileEntry>): seq<Tree> {
    if files == [] then [] else [FileTree(files[0])] + FileTrees(files[1..])
  }

  function MetadataMembers(metadata: map<string, string>, order: seq<string>): seq<Member>
    requires forall k :: k in order ==> k in metadata
  {
    if order == [] then []
    else [Member(order[0], TStr(metadata[order[0]]))] + MetadataMembers(metadata, order[1..])
  }

  // order lists the metadata keys.
  ghost predicate Lists(order: seq<string>, metadata: map<string, string>) {
    forall k :: k in order <==> k in metadata
  }

  function ManifestTree(m: Manifest, order: seq<string>): Tree
    requires Lists(order, m.metadata)
  {
    TObj([
      Member("member_id", TStr(m.memberId)),
      Member("version", TNum(FormatInt(m.version))),
      Member("timestamp", TStr(m.timestamp)),
      Member("files", if m.files == [] then TNull else TArr(FileTrees(m.files)))]
      + if m.metadata == map[] then [] else [Member("metadata", TObj(MetadataMembers(m.metadata, order)))])
  }

  function EnvelopeTree(sm: SignedManifest, order: seq<string>): Tree
    requires Lists(order, sm.manifest.metadata)
  {
    TObj([Member("manifest", ManifestTree(sm.manifest, order)), Member("signature", TStr(sm.signature))])
  }

  // encoding/json escapes the HTML characters and two line separators as well.
  function GoEscape(c: char): string {
    if c == '<' || c == '>' || c == '&' || c == '\U{2028}' || c == '\U{2029}' then UnitEscape(c) else Escape(c)
  }

  function Indent(depth: nat): string {
    if depth == 0 then "\n" else Indent(depth - 1) + "  "
  }

  const COMPACT := Style(GoEscape, _ => "", "")
  const INDENTED := Style(GoEscape, Indent, " ")

  // Canonicalize on a struct: marshal, parse again, print.
  function CanonicalizeManifest(m: Manifest, order: seq<string>): Result<Bytes, Jcs.Error>
    requires Lists(order, m.metadata)
  {
    Jcs.Canonical(Utf8.Encode(Render(ManifestTree(m, order), COMPACT, 0)))
  }

  function EncodeSignedManifest(sm: SignedManifest, order: seq<string>): Bytes
    requires Lists(order, sm.manifest.metadata)
  {
    Utf8.Encode(Render(EnvelopeTree(sm, order), INDENTED, 0) + "\n")
  }

  /* Decoding into structs: an absent member or null leaves the zero value */

  function Field(o: map<string, Json>, name: string): Json {
    if name in o then o[name] else Null
  }

  function DecodeString(v: Json): Option<string> {
    match v
    case Null => Some("")
    case Str(s) => Some(s)
    case _ => None
  }

  function DecodeUint(v: Json): Option<nat> {
    match v
    case Null => Some(0)
    case Num(text) => if ParseUint(text).Some? then Some(ParseUint(text).value as nat) else None
    case _ => None
  }

  function DecodeInt(v: Json): Option<int> {
    match v
    case Null => Some(0)
    case Num(text) => ParseInt(text)
    case _ => None
  }

  function DecodeFile(v: Json): Option<FileEntry> {
    match v
    case Null => Some(FileEntry("", "", 0))
    case Obj(o) =>
      var (path, hash, size) :=
        (DecodeString(Field(o, "path")), DecodeString(Field(o, "sha256")), DecodeInt(Field(o, "size")));
      if path.Some? && hash.Some? && size.Some? then Some(FileEntry(path.value, hash.value, size.value)) else None
    case _ => None
  }

  function DecodeFileItems(items: seq<Json>): Option<seq<FileEntry>> {
    if items == [] then Some([])
    else if DecodeFile(items[0]).None? || DecodeFileItems(items[1..]).None? then None
    else Some([DecodeFile(items[0]).value] + DecodeFileItems(items[1..]).value)
  }

  function DecodeFiles(v: Json): Option<seq<FileEntry>> {
    match v
    case Null => Some([])
    case Arr(items) => DecodeFileItems(items)
    case _ => None
  }

  function DecodeMetadata(v: Json): Option<map<string, string>> {
    match v
    case Null => Some(map[])
    case Obj(o) =>
      if forall k | k in o :: DecodeString(o[k]).Some?
      then Some(map k | k in o :: DecodeString(o[k]).value)
      else None
    case _ => None
  }

  function DecodeManifest(v: Json): Option<Manifest> {
    if !v.Null? && !v.Obj? then None
    else
      var o := if v.Null? then map[] else v.members;
      var (id, version, time, files, metadata) :=
        (DecodeString(Field(o, "member_id")), DecodeUint(Field(o, "version")),
         DecodeString(Field(o, "timestamp")), DecodeFiles(Field(o, "files")),
         DecodeMetadata(Field(o, "metadata")));
      if id.Some? && version.Some? && time.Some? && files.Some? && metadata.Some?
      then Some(Manifest(id.value, version.value, time.value, files.value, metadata.value))
      else None
  }

  /* Signing and verification */

  function SignManifest(p: Primitives, m: Manifest, priv: Key, order: seq<string>): Option<SignedManifest>
    requires Lists(order, m.metadata)
  {
    if !ValidManifest(p, m) || CanonicalizeManifest(m, order).Err? then None
    else Some(SignedManifest(m, p.encode64(p.sign(priv, CanonicalizeManifest(m, order).value))))
  }

  datatype Envelope = Envelope(payload: Option<Json>, signature: string)

  // The generic parse of an envelope: the payload under the given name stays a JSON value.
  function ParseEnvelope(data: Bytes, name: string): Option<Envelope> {
    match ParseDocument(Utf8.Decode(data))
    case None => None
    case Some(v) =>
      if !v.Null? && !v.Obj? then None
      else
        var o := if v.Null? then map[] else v.members;
        match DecodeString(Field(o, "signature"))
        case None => None
        case Some(sig) => Some(Envelope(if name in o then Some(o[name]) else None, sig))
  }

  function DecodeSignature(p: Primitives, s: string): Option<Bytes> {
    match p.decode64(s)
    case None => None
    case Some(b) => if |b| == SIGNATURE_SIZE then Some(b) else None
  }

  datatype Rejection =
    | DocumentTooLarge
    | BadEnvelope
    | NoPayload
    | NotCanonical(e: Jcs.Error)
    | BadSignatureEncoding
    | BadSignature
    | Undecodable
    | StructurallyInvalid

  // The payload of an envelope whose signature covers the payload's canonical bytes.
  function VerifyEnvelope(p: Primitives, data: Bytes, name: string, limit: nat, pub: Key): Result<Json, Rejection> {
    if |data| > limit then Err(DocumentTooLarge)
    else match ParseEnvelope(data, name)
      case None => Err(BadEnvelope)
      case Some(env) =>
        if env.payload.None? then Err(NoPayload)
        else if FirstError(env.payload.value).Some? then Err(NotCanonical(FirstError(env.payload.value).value))
        else
          match DecodeSignature(p, env.signature)
          case None => Err(BadSignatureEncoding)
          case Some(sig) =>
            if p.verify(pub, Utf8.Encode(Text(env.payload.value)), sig) then Ok(env.payload.value)
            else Err(BadSignature)
  }

  function VerifyManifestBytes(p: Primitives, data: Bytes, pub: Key): Result<Manifest, Rejection> {
    match VerifyEnvelope(p, data, "manifest", MAX_MANIFEST_BYTES, pub)
    case Err(e) => Err(e)
    case Ok(payload) =>
      match DecodeManifest(payload)
      case None => Err(Undecodable)
      case Some(m) => if ValidManifest(p, m) then Ok(m) else Err(StructurallyInvalid)
  }

  // The structural parse the store uses on envelopes it wrote itself.
  function DecodeStored(p: Primitives, data: Bytes): Option<Manifest> {
    match ParseEnvelope(data, "manifest")
    case None => None
    case Some(env) =>
      match DecodeManifest(if env.payload.Some? then env.payload.value else Null)
      case None => None
      case Some(m) => if ValidManifest(p, m) then Some(m) else None
  }

  // The canonical bytes a signature in this envelope must cover.
  function SignedPayload(data: Bytes): Option<Bytes> {
    match ParseEnvelope(data, "manifest")
    case None => None
    case Some(env) => if env.payload.Some? then Some(Utf8.Encode(Text(env.payload.value))) else None
  }
}
