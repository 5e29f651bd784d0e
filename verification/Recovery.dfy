/**
 What Open makes of a member directory, and which changes to the directory it cannot see. Nothing
 here writes: these are the facts that make the store's update order crash-safe.
 */
module Recovery {
  import opened Basics
  import opened Decimal
  import opened Manifests
  import opened Disk
  import Utf8

  // How the store decodes an envelope it holds, and how blobs are named.
  datatype Codec = Codec(decode: Bytes -> Option<Manifest>, hash: Bytes -> string)

  datatype MemberState = MemberState(version: nat, bytes: Bytes, manifest: Option<Manifest>, seen: nat)

  /* Names and pointer files */

  function VersionName(v: nat): (name: string)
    ensures |name| > 1 && name[0] == 'v'
  {
    "v" + FormatNat(v)
  }

  function TempName(v: nat): (name: string)
    ensures |name| > 1 && name[0] == '.' && name[1] == 't'
  {
    ".tmp-" + VersionName(v)
  }

  // White space as unicode.IsSpace has it.
  predicate IsTrimmed(c: char) {
    || '\t' <= c <= '\r' || c == ' ' || c == '\U{85}' || c == '\U{A0}' || c == '\U{1680}'
    || '\U{2000}' <= c <= '\U{200A}' || '\U{2028}' <= c <= '\U{2029}'
    || c == '\U{202F}' || c == '\U{205F}' || c == '\U{3000}'
  }

  function TrimSpace(s: string): string {
    if s != "" && IsTrimmed(s[0]) then TrimSpace(s[1..])
    else if s != "" && IsTrimmed(s[|s| - 1]) then TrimSpace(s[..|s| - 1])
    else s
  }

  function Line(s: string): Bytes {
    Utf8.Encode(s + "\n")
  }

  function ReadLine(data: Bytes): string {
    TrimSpace(Utf8.Decode(data))
  }

  function ParseVersionDir(name: string): Option<nat> {
    if name == "" || name[0] != 'v' then None
    else match ParseUint(name[1..])
      case None => None
      case Some(v) => Some(v as nat)
  }

  lemma {:induction false} ReadWrittenLine(s: string)
    requires s != "" && !IsTrimmed(s[0]) && !IsTrimmed(s[|s| - 1])
    ensures ReadLine(Line(s)) == s
  {
    Utf8.DecodeEncode(s + "\n");
    assert (s + "\n")[..|s + "\n"| - 1] == s;
    assert TrimSpace(s) == s;
  }

  lemma {:induction false} DigitIsNotTrimmed(c: char)
    requires IsDigit(c)
    ensures !IsTrimmed(c)
  {
  }

  lemma {:induction false} ReadVersionLine(v: nat)
    requires v < UINT64_LIMIT
    ensures ReadLine(Line(VersionName(v))) == VersionName(v)
    ensures ParseVersionDir(VersionName(v)) == Some(v)
  {
    var name := VersionName(v);
    ParseFormatNat(v);
    assert name[1..] == FormatNat(v);
    DigitIsNotTrimmed(name[|name| - 1]);
    ReadWrittenLine(name);
  }

  lemma {:induction false} ReadNumberLine(v: nat)
    requires v < UINT64_LIMIT
    ensures ParseUint(ReadLine(Line(FormatNat(v)))) == Some(v)
  {
    ParseFormatNat(v);
    DigitIsNotTrimmed(FormatNat(v)[0]);
    DigitIsNotTrimmed(FormatNat(v)[|FormatNat(v)| - 1]);
    ReadWrittenLine(FormatNat(v));
  }

  lemma {:induction false} VersionNameInjective(v: nat, w: nat)
    requires VersionName(v) == VersionName(w)
    ensures v == w
  {
    assert VersionName(v)[1..] == FormatNat(v) && VersionName(w)[1..] == FormatNat(w);
    FormatNatInjective(v, w);
  }

  /* loadMember */

  datatype Loaded = Absent | Corrupt | Present(state: MemberState)

  function LoadSeen(e: Entries): nat {
    if "seen" in e && e["seen"].File? && ParseUint(ReadLine(e["seen"].data)).Some?
    then ParseUint(ReadLine(e["seen"].data)).value
    else 0
  }

  // The directory the pointer file names and its version.
  function Pointer(e: Entries): Option<(string, nat)> {
    if "current" !in e || e["current"].Dir? then None
    else
      var name := ReadLine(e["current"].data);
      match ParseVersionDir(name)
      case None => None
      case Some(v) => Some((name, v))
  }

  function Load(c: Codec, id: string, e: Entries): Loaded {
    if "current" !in e then
      if LoadSeen(e) > 0 then Present(MemberState(0, [], None, LoadSeen(e))) else Absent
    else if Pointer(e).None? then Corrupt
    else
      var (name, v) := Pointer(e).value;
      match FileIn(e, name, "manifest.json")
      case None => Corrupt
      case Some(bytes) =>
        match c.decode(bytes)
        case None => Corrupt
        case Some(m) =>
          if m.version != v || m.memberId != id then Corrupt
          else Present(MemberState(v, bytes, Some(m), Max(LoadSeen(e), v)))
  }

  // Trimming takes white space off both ends and nothing else.
  lemma {:induction false} TrimSpaceIs(s: string) returns (i: nat, j: nat)
    ensures i <= j <= |s| && TrimSpace(s) == s[i..j]
    ensures forall k | 0 <= k < i || j <= k < |s| :: IsTrimmed(s[k])
    ensures i < j ==> !IsTrimmed(s[i]) && !IsTrimmed(s[j - 1])
  {
    if s != "" && IsTrimmed(s[0]) {
      i, j := TrimSpaceIs(s[1..]);
      assert s[1..][i..j] == s[i + 1..j + 1];
      assert forall k | 1 <= k < |s| :: s[k] == s[1..][k - 1];
      i, j := i + 1, j + 1;
    } else if s != "" && IsTrimmed(s[|s| - 1]) {
      i, j := TrimSpaceIs(s[..|s| - 1]);
    } else {
      i, j := 0, |s|;
    }
  }

  // The number in the seen file, and 0 if it cannot be read.
  lemma {:induction false} SeenIsRead(e: Entries, n: nat)
    requires n > 0
    ensures LoadSeen(e) == n <==>
      && "seen" in e && e["seen"].File?
      && var digits := TrimSpace(Utf8.Decode(e["seen"].data));
         digits != "" && AllDigits(digits) && n == DigitsValue(digits) <= 18446744073709551615
  {
  }

  // The current file names a version directory, and this is the version.
  ghost predicate PointsTo(e: Entries, name: string, v: nat) {
    && "current" in e && e["current"].File? && TrimSpace(Utf8.Decode(e["current"].data)) == name
    && |name| > 1 && name[0] == 'v' && AllDigits(name[1..]) && v == DigitsValue(name[1..]) <= 18446744073709551615
  }

  lemma {:induction false} PointerNames(e: Entries, name: string, v: nat)
    ensures Pointer(e) == Some((name, v)) <==> PointsTo(e, name, v)
  {
  }

  // The three outcomes of loading, told from the files. A bundle is found exactly if the current file
  // names a version directory with a manifest of that version and member. Without a current file there
  // is at most a mark.
  lemma {:induction false} LoadsExactly(c: Codec, id: string, e: Entries)
    ensures forall v: nat, bytes, m, seen: nat ::
      Load(c, id, e) == Present(MemberState(v, bytes, Some(m), seen)) <==>
        Finds(c, id, e, v, bytes, m) && seen == if LoadSeen(e) < v then v else LoadSeen(e)
    ensures Load(c, id, e) == Absent <==> "current" !in e && LoadSeen(e) == 0
    ensures Load(c, id, e).Present? && Load(c, id, e).state.manifest.None? <==> "current" !in e && LoadSeen(e) > 0
    ensures "current" !in e && LoadSeen(e) > 0 ==> Load(c, id, e) == Present(MemberState(0, [], None, LoadSeen(e)))
  {
    if Pointer(e).Some? {
      PointerNames(e, Pointer(e).value.0, Pointer(e).value.1);
    }
    forall v: nat, bytes, m | Finds(c, id, e, v, bytes, m)
      ensures Load(c, id, e) == Present(MemberState(v, bytes, Some(m), Max(LoadSeen(e), v)))
    {
      var name :| PointsTo(e, name, v) && FileIn(e, name, "manifest.json") == Some(bytes);
      PointerNames(e, name, v);
    }
    if Load(c, id, e).Present? && Load(c, id, e).state.manifest.Some? {
      var st := Load(c, id, e).state;
      assert Finds(c, id, e, st.version, st.bytes, st.manifest.value);
    }
  }

  ghost predicate Finds(c: Codec, id: string, e: Entries, v: nat, bytes: Bytes, m: Manifest) {
    && (exists name :: PointsTo(e, name, v) && FileIn(e, name, "manifest.json") == Some(bytes))
    && c.decode(bytes) == Some(m) && m.version == v && m.memberId == id
  }

  /* Bundles */

  datatype Bundle = Bundle(bytes: Bytes, manifest: Manifest, blobs: map<string, Bytes>)

  function Hashes(m: Manifest): set<string> {
    set f | f in m.files :: f.sha256
  }

  // The manifest found by Load and the blobs it names, read from the directory BlobPath looks in.
  function Held(c: Codec, id: string, e: Entries): Option<Bundle> {
    match Load(c, id, e)
    case Present(st) =>
      if st.manifest.None? then None
      else
        var name := VersionName(st.version);
        Some(Bundle(st.bytes, st.manifest.value,
          map h | h in Hashes(st.manifest.value) && BlobIn(e, name, h).Some? :: BlobIn(e, name, h).value))
    case _ => None
  }

  // Every blob the manifest names is there, and is what its name says.
  ghost predicate Complete(c: Codec, b: Bundle) {
    forall h | h in Hashes(b.manifest) :: h in b.blobs && c.hash(b.blobs[h]) == h
  }

  // The same manifest with fewer blobs, or with all of them.
  ghost predicate TornFrom(b: Bundle, torn: Bundle) {
    && torn.bytes == b.bytes && torn.manifest == b.manifest
    && forall h | h in torn.blobs :: h in b.blobs && torn.blobs[h] == b.blobs[h]
  }

  // No version directory, current or not, has a blob that is not what its name says.
  ghost predicate Intact(c: Codec, e: Entries) {
    forall name, h | name != "" && name[0] == 'v' && BlobIn(e, name, h).Some? :: c.hash(BlobIn(e, name, h).value) == h
  }

  // What crash-only histories keep.
  ghost predicate Clean(c: Codec, id: string, e: Entries) {
    && !Load(c, id, e).Corrupt?
    && Intact(c, e)
    && (Held(c, id, e).Some? ==> Complete(c, Held(c, id, e).value))
  }

  /* Changes that recovery does not see */

  // Entries that a bundle of the given version does not depend on.
  ghost predicate Irrelevant(names: set<string>, pointer: Option<(string, nat)>) {
    && "current" !in names
    && (pointer.Some? ==> pointer.value.0 !in names && VersionName(pointer.value.1) !in names)
  }

  lemma {:induction false} LoadIgnores(c: Codec, id: string, e: Entries, f: Entries, names: set<string>)
    requires SameExcept(e, f, names) && Irrelevant(names, Pointer(e)) && "seen" !in names
    requires !Load(c, id, e).Corrupt?
    ensures Load(c, id, f) == Load(c, id, e)
    ensures Held(c, id, f) == Held(c, id, e)
  {
    SameSeen(e, f, names);
    SamePointer(e, f, names);
    if Load(c, id, e).Present? && Load(c, id, e).state.manifest.Some? {
      var st := Load(c, id, e).state;
      var name := VersionName(st.version);
      assert forall h :: BlobIn(f, name, h) == BlobIn(e, name, h);
      assert Held(c, id, f).value.blobs == Held(c, id, e).value.blobs;
    }
  }

  lemma {:induction false} SameSeen(e: Entries, f: Entries, names: set<string>)
    requires SameExcept(e, f, names) && "seen" !in names
    ensures LoadSeen(f) == LoadSeen(e)
  {
  }

  lemma {:induction false} SamePointer(e: Entries, f: Entries, names: set<string>)
    requires SameExcept(e, f, names) && Irrelevant(names, Pointer(e))
    ensures Pointer(f) == Pointer(e) && ("current" in f <==> "current" in e)
    ensures Pointer(e).Some? ==>
      FileIn(f, Pointer(e).value.0, "manifest.json") == FileIn(e, Pointer(e).value.0, "manifest.json")
  {
  }

  lemma {:induction false} PartKeepsBlobs(c: Codec, e: Entries, f: Entries, name: string)
    requires Shrunk(e, f, name)
    ensures forall n, h | BlobIn(f, n, h).Some? :: BlobIn(e, n, h) == BlobIn(f, n, h)
  {
    forall n, h | BlobIn(f, n, h).Some? ensures BlobIn(e, n, h) == BlobIn(f, n, h) {
      if n == name {
        var (a, b) := (f[n].entries, e[n].entries);
        assert PartOf(a["blobs"], b["blobs"]);
        assert PartOf(a["blobs"].entries[h], b["blobs"].entries[h]);
      }
    }
  }

  lemma {:induction false} ShrunkStaysIntact(c: Codec, e: Entries, f: Entries, name: string)
    requires Shrunk(e, f, name) && Intact(c, e)
    ensures Intact(c, f)
  {
    PartKeepsBlobs(c, e, f, name);
  }

  // Entries outside the version directories hold no blobs.
  lemma {:induction false} HiddenStaysIntact(c: Codec, e: Entries, f: Entries, names: set<string>)
    requires SameExcept(e, f, names) && Intact(c, e)
    requires forall n | n in names :: n == "" || n[0] != 'v'
    ensures Intact(c, f)
  {
    forall n, h | n != "" && n[0] == 'v' && BlobIn(f, n, h).Some? ensures c.hash(BlobIn(f, n, h).value) == h {
      assert BlobIn(e, n, h) == BlobIn(f, n, h);
    }
  }

  /* The new bundle */

  // The directory Put builds before it renames it into place.
  function Built(bytes: Bytes, blobs: map<string, Bytes>): Node {
    Dir(map["blobs" := Dir(map h | h in blobs :: File(blobs[h])), "manifest.json" := File(bytes)])
  }

  // The current file names the new version, whose directory is complete.
  ghost predicate Committed(e: Entries, v: nat, bytes: Bytes, blobs: map<string, Bytes>) {
    && "current" in e && e["current"] == File(Line(VersionName(v)))
    && VersionName(v) in e && e[VersionName(v)] == Built(bytes, blobs)
  }

  ghost predicate Covers(m: Manifest, blobs: map<string, Bytes>) {
    forall h | h in Hashes(m) :: h in blobs
  }

  function NewBundle(m: Manifest, bytes: Bytes, blobs: map<string, Bytes>): Bundle {
    Bundle(bytes, m, map h | h in Hashes(m) && h in blobs :: blobs[h])
  }

  lemma {:induction false} BuiltBlobs(e: Entries, v: nat, bytes: Bytes, blobs: map<string, Bytes>)
    requires VersionName(v) in e && e[VersionName(v)] == Built(bytes, blobs)
    ensures FileIn(e, VersionName(v), "manifest.json") == Some(bytes)
    ensures forall h :: BlobIn(e, VersionName(v), h) == if h in blobs then Some(blobs[h]) else None
  {
  }

  // Whatever has the current file name it, a complete directory loads as exactly the new bundle.
  lemma {:induction false} LoadNamed(
    c: Codec, id: string, e: Entries, m: Manifest, bytes: Bytes, blobs: map<string, Bytes>)
    requires Pointer(e) == Some((VersionName(m.version), m.version))
    requires VersionName(m.version) in e && e[VersionName(m.version)] == Built(bytes, blobs)
    requires c.decode(bytes) == Some(m) && m.memberId == id
    ensures Load(c, id, e) == Present(MemberState(m.version, bytes, Some(m), Max(LoadSeen(e), m.version)))
    ensures Held(c, id, e) == Some(NewBundle(m, bytes, blobs))
  {
    BuiltBlobs(e, m.version, bytes, blobs);
    assert Held(c, id, e).value.blobs == NewBundle(m, bytes, blobs).blobs;
  }

  // A committed directory loads as exactly the new bundle.
  lemma {:induction false} LoadCommitted(
    c: Codec, id: string, e: Entries, m: Manifest, bytes: Bytes, blobs: map<string, Bytes>)
    requires Committed(e, m.version, bytes, blobs) && m.version < UINT64_LIMIT
    requires c.decode(bytes) == Some(m) && m.memberId == id
    ensures Load(c, id, e) == Present(MemberState(m.version, bytes, Some(m), Max(LoadSeen(e), m.version)))
    ensures Held(c, id, e) == Some(NewBundle(m, bytes, blobs))
  {
    ReadVersionLine(m.version);
    LoadNamed(c, id, e, m, bytes, blobs);
  }

  lemma {:induction false} NewBundleComplete(c: Codec, m: Manifest, bytes: Bytes, blobs: map<string, Bytes>)
    requires Covers(m, blobs) && forall h | h in blobs :: c.hash(blobs[h]) == h
    ensures Complete(c, NewBundle(m, bytes, blobs))
  {
  }

  // A complete directory in place of whatever had the version's name leaves every directory intact.
  lemma {:induction false} BuiltStaysIntact(
    c: Codec, e: Entries, f: Entries, v: nat, bytes: Bytes, blobs: map<string, Bytes>)
    requires Intact(c, e) && forall h | h in blobs :: c.hash(blobs[h]) == h
    requires SameExcept(e, f, {TempName(v), VersionName(v)})
    requires VersionName(v) in f && f[VersionName(v)] == Built(bytes, blobs)
    ensures Intact(c, f)
  {
    BuiltBlobs(f, v, bytes, blobs);
    forall n, h | n != "" && n[0] == 'v' && BlobIn(f, n, h).Some? ensures c.hash(BlobIn(f, n, h).value) == h {
      if n != VersionName(v) {
        assert BlobIn(e, n, h) == BlobIn(f, n, h);
      }
    }
  }
}
