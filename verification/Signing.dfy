/**
 What a manifest signature guarantees: signing, writing and verifying returns the manifest, and
 whatever verifies is a manifest that was signed.
 */
module Signing {
  import opened Basics
  import opened Decimal
  import opened Json
  import opened JsonText
  import opened Jcs
  import opened Canonical
  import opened Manifests
  import Utf8

  // The JSON value of a manifest, free of field order and layout.
  function ManifestJson(m: Manifest): Json {
    var o := BasicMembers(m);
    Obj(if m.metadata == map[] then o else o["metadata" := MetadataJson(m.metadata)])
  }

  function FileJson(f: FileEntry): Json {
    Obj(map["path" := Str(f.path), "sha256" := Str(f.sha256), "size" := Num(FormatInt(f.size))])
  }

  function FilesJson(files: seq<FileEntry>): (r: seq<Json>)
    ensures |r| == |files| && forall i | 0 <= i < |r| :: r[i] == FileJson(files[i])
  {
    if files == [] then [] else [FileJson(files[0])] + FilesJson(files[1..])
  }

  function MetadataJson(metadata: map<string, string>): Json {
    Obj(map k | k in metadata :: Str(metadata[k]))
  }

  lemma {:induction false} IndentIsSpace(n: nat)
    ensures AllSpace(Indent(n))
  {
    if n > 0 {
      IndentIsSpace(n - 1);
    }
  }

  lemma {:induction false} GoEscapeIsRead(c: char, rest: string)
    ensures ReadsAs(GoEscape(c), c, rest)
  {
    if c == '<' || c == '>' || c == '&' || c == '\U{2028}' || c == '\U{2029}' {
      UnescapeUnitEscape(c, rest);
    } else {
      EscapeIsRead(c, rest);
    }
  }

  lemma {:induction false} GoStylesAreGood()
    ensures Good(COMPACT) && Good(INDENTED)
  {
    var escape := GoEscape;
    forall c: char, rest: string ensures ReadsAs(escape(c), c, rest) {
      GoEscapeIsRead(c, rest);
    }
    forall n: nat ensures AllSpace(INDENTED.newline(n)) {
      IndentIsSpace(n);
    }
  }

  // What the program writes: two spaces a level, no HTML character or line separator inside a string, and
  // a newline at the end.
  lemma {:induction false} IndentIs(depth: nat)
    ensures |Indent(depth)| == 1 + 2 * depth && Indent(depth)[0] == '\n'
    ensures forall i | 0 < i < |Indent(depth)| :: Indent(depth)[i] == ' '
  {
    if depth > 0 {
      IndentIs(depth - 1);
    }
  }

  predicate IsHtml(c: char) {
    c == '<' || c == '>' || c == '&' || c == '\U{2028}' || c == '\U{2029}'
  }

  lemma {:induction false} HexIsNotHtml(d: nat)
    requires d < 16
    ensures !IsHtml(HexDigit(d))
  {
  }

  lemma {:induction false} UnitEscapeHasNoHtml(c: char)
    requires c as int < 0x1_0000
    ensures forall d | d in UnitEscape(c) :: !IsHtml(d)
  {
    var n := c as int;
    HexIsNotHtml(n / 4096);
    HexIsNotHtml(n / 256 % 16);
    HexIsNotHtml(n / 16 % 16);
    HexIsNotHtml(n % 16);
  }

  lemma {:induction false} GoEscapeHasNoHtml(c: char)
    ensures forall d | d in GoEscape(c) :: !IsHtml(d)
  {
    if IsHtml(c) || c < ' ' {
      UnitEscapeHasNoHtml(c);
    }
  }

  lemma {:induction false} NoHtmlIn(s: string)
    ensures forall c | c in EscapeAll(s, INDENTED) :: !IsHtml(c)
  {
    if s != "" {
      GoEscapeHasNoHtml(s[0]);
      NoHtmlIn(s[1..]);
    }
  }

  lemma {:induction false} EndsWithNewline(sm: SignedManifest, order: seq<string>)
    requires Lists(order, sm.manifest.metadata)
    ensures
      var data := EncodeSignedManifest(sm, order);
      data != [] && data[|data| - 1] == 10
  {
    Utf8.EncodeConcat(Render(EnvelopeTree(sm, order), INDENTED, 0), "\n");
    assert Utf8.Encode("\n") == [10];
  }

  lemma {:induction false} MembersCons(m: Member, rest: seq<Member>, read: map<string, Json>)
    ensures MembersToJson([m] + rest, read) == MembersToJson(rest, read[m.key := ToJson(m.value)])
  {
    assert ([m] + rest)[1..] == rest;
  }

  lemma {:induction false} FileTreeDenotes(f: FileEntry)
    ensures ToJson(FileTree(f)) == FileJson(f) && Numeric(FileTree(f))
  {
    FormatIntIsNumber(f.size);
    var path, hash, size :=
      Member("path", TStr(f.path)), Member("sha256", TStr(f.sha256)), Member("size", TNum(FormatInt(f.size)));
    Split3(path, hash, size);
    MembersCons(path, [hash] + ([size] + []), map[]);
    MembersCons(hash, [size] + [], map["path" := Str(f.path)]);
    MembersCons(size, [], map["path" := Str(f.path), "sha256" := Str(f.sha256)]);
  }

  lemma {:induction false} FileTreesDenote(files: seq<FileEntry>)
    ensures ItemsToJson(FileTrees(files)) == FilesJson(files)
    ensures forall i | 0 <= i < |FileTrees(files)| :: Numeric(FileTrees(files)[i])
    ensures (FileTrees(files) == []) == (files == [])
  {
    if files != [] {
      FileTreeDenotes(files[0]);
      FileTreesDenote(files[1..]);
    }
  }

  lemma {:induction false} MetadataDenotes(metadata: map<string, string>, order: seq<string>, read: map<string, Json>)
    requires forall k :: k in order ==> k in metadata
    ensures MembersToJson(MetadataMembers(metadata, order), read)
      == read + map k | k in order :: Str(metadata[k])
    ensures forall i | 0 <= i < |MetadataMembers(metadata, order)| ::
      Numeric(MetadataMembers(metadata, order)[i].value)
  {
    if order != [] {
      var k := order[0];
      MetadataDenotes(metadata, order[1..], read[k := Str(metadata[k])]);
      assert forall j :: j in order <==> j == k || j in order[1..];
    }
  }

  lemma {:induction false} FilesMember(m: Manifest)
    ensures
      var files := if m.files == [] then TNull else TArr(FileTrees(m.files));
      ToJson(files) == (if m.files == [] then Null else Arr(FilesJson(m.files))) && Numeric(files)
  {
    FileTreesDenote(m.files);
  }

  lemma {:induction false} MetadataMember(metadata: map<string, string>, order: seq<string>)
    requires Lists(order, metadata)
    ensures
      var t := TObj(MetadataMembers(metadata, order));
      ToJson(t) == MetadataJson(metadata) && Numeric(t)
  {
    MetadataDenotes(metadata, order, map[]);
    assert MetadataJson(metadata).members == map k | k in order :: Str(metadata[k]);
  }

  // The members every manifest has, in the order of the struct.
  function BasicMembers(m: Manifest): map<string, Json> {
    map[
      "member_id" := Str(m.memberId),
      "version" := Num(FormatInt(m.version)),
      "timestamp" := Str(m.timestamp),
      "files" := if m.files == [] then Null else Arr(FilesJson(m.files))]
  }

  lemma {:induction false} BasicMembersDenote(
    m: Manifest, id: Member, version: Member, time: Member, files: Member, rest: seq<Member>)
    requires id == Member("member_id", TStr(m.memberId))
    requires version == Member("version", TNum(FormatInt(m.version)))
    requires time == Member("timestamp", TStr(m.timestamp))
    requires files.key == "files" && ToJson(files.value) == if m.files == [] then Null else Arr(FilesJson(m.files))
    ensures MembersToJson([id] + ([version] + ([time] + ([files] + rest))), map[])
      == MembersToJson(rest, BasicMembers(m))
  {
    var r1 := map["member_id" := Str(m.memberId)];
    var r2 := r1["version" := Num(FormatInt(m.version))];
    var r3 := r2["timestamp" := Str(m.timestamp)];
    MembersCons(id, [version] + ([time] + ([files] + rest)), map[]);
    MembersCons(version, [time] + ([files] + rest), r1);
    MembersCons(time, [files] + rest, r2);
    MembersCons(files, rest, r3);
  }

  function MetadataRest(m: Manifest, order: seq<string>): seq<Member>
    requires Lists(order, m.metadata)
  {
    if m.metadata == map[] then [] else [Member("metadata", TObj(MetadataMembers(m.metadata, order)))]
  }

  lemma {:induction false} MetadataRestDenotes(m: Manifest, order: seq<string>)
    requires Lists(order, m.metadata)
    ensures Obj(MembersToJson(MetadataRest(m, order), BasicMembers(m))) == ManifestJson(m)
    ensures forall i | 0 <= i < |MetadataRest(m, order)| :: Numeric(MetadataRest(m, order)[i].value)
  {
    if m.metadata != map[] {
      MetadataMember(m.metadata, order);
      var rest := MetadataRest(m, order);
      assert rest == [rest[0]] + [];
      MembersCons(rest[0], [], BasicMembers(m));
    }
  }

  lemma {:induction false} NumericObject(a: Member, b: Member, c: Member, d: Member, rest: seq<Member>)
    requires Numeric(a.value) && Numeric(b.value) && Numeric(c.value) && Numeric(d.value)
    requires forall i | 0 <= i < |rest| :: Numeric(rest[i].value)
    ensures Numeric(TObj([a, b, c, d] + rest))
    ensures [a, b, c, d] + rest == [a] + ([b] + ([c] + ([d] + rest)))
  {
  }

  // Field order and the order of map entries do not show in the value.
  lemma {:induction false} ManifestTreeDenotes(m: Manifest, order: seq<string>)
    requires Lists(order, m.metadata)
    ensures ToJson(ManifestTree(m, order)) == ManifestJson(m) && Numeric(ManifestTree(m, order))
  {
    var id, version := Member("member_id", TStr(m.memberId)), Member("version", TNum(FormatInt(m.version)));
    var time := Member("timestamp", TStr(m.timestamp));
    var files := Member("files", if m.files == [] then TNull else TArr(FileTrees(m.files)));
    var rest := MetadataRest(m, order);
    FormatIntIsNumber(m.version);
    FilesMember(m);
    MetadataRestDenotes(m, order);
    NumericObject(id, version, time, files, rest);
    BasicMembersDenote(m, id, version, time, files, rest);
    assert ManifestTree(m, order).members == [id, version, time, files] + rest;
  }

  lemma {:induction false} DecodeFilesJson(files: seq<FileEntry>)
    requires forall i | 0 <= i < |files| :: 0 <= files[i].size <= MAX_BLOB_BYTES
    ensures DecodeFileItems(FilesJson(files)) == Some(files)
  {
    if files != [] {
      ParseFormatInt(files[0].size);
      assert DecodeFile(FileJson(files[0])) == Some(files[0]);
      DecodeFilesJson(files[1..]);
      assert FilesJson(files)[1..] == FilesJson(files[1..]);
      assert [files[0]] + files[1..] == files;
    }
  }

  lemma {:induction false} ManifestFields(m: Manifest)
    ensures
      var o := ManifestJson(m).members;
      && Field(o, "member_id") == Str(m.memberId)
      && Field(o, "version") == Num(FormatInt(m.version))
      && Field(o, "timestamp") == Str(m.timestamp)
      && Field(o, "files") == (if m.files == [] then Null else Arr(FilesJson(m.files)))
      && Field(o, "metadata") == (if m.metadata == map[] then Null else MetadataJson(m.metadata))
  {
  }

  lemma {:induction false} DecodeMetadataJson(metadata: map<string, string>)
    ensures DecodeMetadata(MetadataJson(metadata)) == Some(metadata)
  {
    var o := MetadataJson(metadata).members;
    assert (map k | k in o :: DecodeString(o[k]).value) == metadata;
  }

  lemma {:induction false} DecodeFromFields(o: map<string, Json>, m: Manifest)
    requires DecodeString(Field(o, "member_id")) == Some(m.memberId)
    requires DecodeUint(Field(o, "version")) == Some(m.version)
    requires DecodeString(Field(o, "timestamp")) == Some(m.timestamp)
    requires DecodeFiles(Field(o, "files")) == Some(m.files)
    requires DecodeMetadata(Field(o, "metadata")) == Some(m.metadata)
    ensures DecodeManifest(Obj(o)) == Some(m)
  {
  }

  lemma {:induction false} DecodeStr(s: string)
    ensures DecodeString(Str(s)) == Some(s)
  {
  }

  lemma {:induction false} DecodeManifestJson(p: Primitives, m: Manifest)
    requires ValidManifest(p, m)
    ensures DecodeManifest(ManifestJson(m)) == Some(m)
  {
    var o := ManifestJson(m).members;
    ManifestFields(m);
    DecodeVersion(m.version);
    BoundedSizes(m.files);
    DecodeFilesMember(m.files);
    DecodeMetadataMember(m.metadata);
    DecodeStr(m.memberId);
    DecodeStr(m.timestamp);
    DecodeFromFields(o, m);
  }

  lemma {:induction false} BoundedSizes(files: seq<FileEntry>)
    requires ValidFiles(files)
    ensures forall i | 0 <= i < |files| :: 0 <= files[i].size <= MAX_BLOB_BYTES
  {
    forall i | 0 <= i < |files| ensures 0 <= files[i].size <= MAX_BLOB_BYTES {
      assert ValidFile(files[i]);
    }
  }

  lemma {:induction false} DecodeMetadataMember(metadata: map<string, string>)
    ensures DecodeMetadata(if metadata == map[] then Null else MetadataJson(metadata)) == Some(metadata)
  {
    DecodeMetadataJson(metadata);
  }

  lemma {:induction false} DecodeVersion(n: nat)
    requires n < UINT64_LIMIT
    ensures DecodeUint(Num(FormatInt(n))) == Some(n)
  {
    ParseFormatNat(n);
  }

  lemma {:induction false} DecodeFilesMember(files: seq<FileEntry>)
    requires forall i | 0 <= i < |files| :: 0 <= files[i].size <= MAX_BLOB_BYTES
    ensures DecodeFiles(if files == [] then Null else Arr(FilesJson(files))) == Some(files)
  {
    DecodeFilesJson(files);
  }

  // Supported and already in normal form.
  predicate Plain(v: Json) {
    Supported(v) && Normal(v) == v
  }

  lemma {:induction false} PlainInsert(o: map<string, Json>, k: string, v: Json)
    requires Plain(Obj(o)) && Plain(v)
    ensures Plain(Obj(o[k := v]))
  {
    var o' := o[k := v];
    forall j | j in o' ensures Supported(o'[j]) && Normal(o'[j]) == o'[j] {
      if j != k {
        assert Normal(Obj(o)).members[j] == o[j];
      }
    }
    assert Normal(Obj(o')).members == o';
  }

  lemma {:induction false} FileJsonIsPlain(f: FileEntry)
    requires 0 <= f.size <= MAX_BLOB_BYTES
    ensures Plain(FileJson(f))
  {
    FormatIntIsNormal(f.size);
    var o: map<string, Json> := map[];
    assert Normal(Obj(o)).members == o;
    PlainInsert(o, "path", Str(f.path));
    PlainInsert(o["path" := Str(f.path)], "sha256", Str(f.sha256));
    PlainInsert(o["path" := Str(f.path)]["sha256" := Str(f.sha256)], "size", Num(FormatInt(f.size)));
  }

  lemma {:induction false} FilesJsonArePlain(files: seq<FileEntry>)
    requires forall i | 0 <= i < |files| :: 0 <= files[i].size <= MAX_BLOB_BYTES
    ensures Plain(Arr(FilesJson(files)))
  {
    var items := FilesJson(files);
    forall i | 0 <= i < |items| ensures Plain(items[i]) {
      FileJsonIsPlain(files[i]);
    }
    assert Normal(Arr(items)).items == items;
  }

  lemma {:induction false} MetadataJsonIsPlain(metadata: map<string, string>)
    ensures Plain(MetadataJson(metadata))
  {
    var o := MetadataJson(metadata).members;
    assert Normal(Obj(o)).members == o;
  }

  lemma {:induction false} BasicMembersArePlain(m: Manifest)
    requires ValidFiles(m.files) && m.files != [] && m.version <= MAX_SAFE_INTEGER
    ensures Plain(Obj(BasicMembers(m)))
  {
    var none: map<string, Json> := map[];
    assert Normal(Obj(none)).members == none;
    BoundedSizes(m.files);
    FormatIntIsNormal(m.version);
    FilesJsonArePlain(m.files);
    var o1 := none["member_id" := Str(m.memberId)];
    var o2 := o1["version" := Num(FormatInt(m.version))];
    var o3 := o2["timestamp" := Str(m.timestamp)];
    PlainInsert(none, "member_id", Str(m.memberId));
    PlainInsert(o1, "version", Num(FormatInt(m.version)));
    PlainInsert(o2, "timestamp", Str(m.timestamp));
    PlainInsert(o3, "files", Arr(FilesJson(m.files)));
    assert BasicMembers(m) == o3["files" := Arr(FilesJson(m.files))];
  }

  lemma {:induction false} ManifestJsonIsPlain(p: Primitives, m: Manifest)
    requires ValidManifest(p, m)
    ensures Plain(ManifestJson(m))
  {
    BasicMembersArePlain(m);
    MetadataJsonIsPlain(m.metadata);
    PlainInsert(BasicMembers(m), "metadata", MetadataJson(m.metadata));
  }

  // What SignManifest signs: the canonical bytes of the manifest's value.
  function ManifestBytes(m: Manifest): Bytes {
    Utf8.Encode(Text(ManifestJson(m)))
  }

  lemma {:induction false} StructPathIsCanonical(p: Primitives, m: Manifest, order: seq<string>)
    requires ValidManifest(p, m) && Lists(order, m.metadata)
    ensures CanonicalizeManifest(m, order) == Ok(ManifestBytes(m))
  {
    var t := ManifestTree(m, order);
    GoStylesAreGood();
    ManifestTreeDenotes(m, order);
    ManifestJsonIsPlain(p, m);
    FailsIffUnsupported(ManifestJson(m));
    assert Render(t, COMPACT, 0) + "" == Render(t, COMPACT, 0);
    CanonicalOfDocument(t, COMPACT, 0, "");
  }

  // Exactly the valid manifests are signed, and what is signed is their canonical bytes.
  lemma {:induction false} SignsExactly(p: Primitives, m: Manifest, priv: Key, order: seq<string>)
    requires Lists(order, m.metadata)
    ensures SignManifest(p, m, priv, order) ==
      if ValidManifest(p, m) then Some(SignedManifest(m, p.encode64(p.sign(priv, ManifestBytes(m))))) else None
  {
    if ValidManifest(p, m) {
      StructPathIsCanonical(p, m, order);
    }
  }

  lemma {:induction false} EnvelopeParses(sm: SignedManifest, order: seq<string>)
    requires Lists(order, sm.manifest.metadata)
    ensures ParseEnvelope(EncodeSignedManifest(sm, order), "manifest")
      == Some(Envelope(Some(ManifestJson(sm.manifest)), sm.signature))
  {
    var t := EnvelopeTree(sm, order);
    GoStylesAreGood();
    EnvelopeTreeDenotes(sm, order);
    ParseIndented(t);
    ParsedEnvelope(EncodeSignedManifest(sm, order), ManifestJson(sm.manifest), sm.signature);
  }

  // An indented document with its final newline parses to its value.
  lemma {:induction false} ParseIndented(t: Tree)
    requires Good(INDENTED) && Numeric(t) && !t.TNum?
    ensures ParseDocument(Utf8.Decode(Utf8.Encode(Render(t, INDENTED, 0) + "\n"))) == Some(ToJson(t))
  {
    var text := Render(t, INDENTED, 0) + "\n";
    RenderHead(t, INDENTED, 0, "\n");
    ParseRender(t, INDENTED, 0, "\n");
    Utf8.DecodeEncode(text);
    assert SkipSpace("\n") == "";
  }

  lemma {:induction false} ParsedEnvelope(data: Bytes, payload: Json, signature: string)
    requires ParseDocument(Utf8.Decode(data)) == Some(Obj(map["manifest" := payload, "signature" := Str(signature)]))
    ensures ParseEnvelope(data, "manifest") == Some(Envelope(Some(payload), signature))
  {
    var o := map["manifest" := payload, "signature" := Str(signature)];
    assert Field(o, "signature") == Str(signature) && o["manifest"] == payload;
  }

  lemma {:induction false} EnvelopeTreeDenotes(sm: SignedManifest, order: seq<string>)
    requires Lists(order, sm.manifest.metadata)
    ensures ToJson(EnvelopeTree(sm, order))
      == Obj(map["manifest" := ManifestJson(sm.manifest), "signature" := Str(sm.signature)])
    ensures Numeric(EnvelopeTree(sm, order))
  {
    var t := EnvelopeTree(sm, order);
    ManifestTreeDenotes(sm.manifest, order);
    var manifest, signature := t.members[0], t.members[1];
    assert t.members == [manifest] + ([signature] + []);
    MembersCons(manifest, [signature] + [], map[]);
    MembersCons(signature, [], map["manifest" := ManifestJson(sm.manifest)]);
  }

  // Signing, writing the envelope and verifying its bytes gives the manifest back, for any order in
  // which the two passes walk the metadata.
  lemma {:induction false} SignEncodeVerify(
    p: Primitives, m: Manifest, priv: Key, order: seq<string>, order': seq<string>)
    requires Lawful(p) && ValidManifest(p, m)
    requires Lists(order, m.metadata) && Lists(order', m.metadata)
    ensures SignManifest(p, m, priv, order).Some?
    ensures
      var data := EncodeSignedManifest(SignManifest(p, m, priv, order).value, order');
      VerifyManifestBytes(p, data, p.publicKey(priv)) ==
        if |data| <= MAX_MANIFEST_BYTES then Ok(m) else Err(DocumentTooLarge)
  {
    StructPathIsCanonical(p, m, order);
    var sm := SignManifest(p, m, priv, order).value;
    EnvelopeParses(sm, order');
    ManifestJsonIsPlain(p, m);
    FailsIffUnsupported(ManifestJson(m));
    DecodeManifestJson(p, m);
  }

  // Reading back what was encoded needs no signature check and no size limit.
  lemma {:induction false} EncodedIsStored(p: Primitives, m: Manifest, signature: string, order: seq<string>)
    requires ValidManifest(p, m) && Lists(order, m.metadata)
    ensures DecodeStored(p, EncodeSignedManifest(SignedManifest(m, signature), order)) == Some(m)
  {
    EnvelopeParses(SignedManifest(m, signature), order);
    DecodeManifestJson(p, m);
  }

  /* Reading a manifest from any JSON object: what each field must be */

  predicate Absent(o: map<string, Json>, name: string) {
    name !in o || o[name] == Null
  }

  // The member is the string, or missing while the string is empty.
  predicate TextIn(o: map<string, Json>, name: string, s: string) {
    if Absent(o, name) then s == "" else o[name] == Str(s)
  }

  predicate NaturalIn(o: map<string, Json>, name: string, n: nat) {
    if Absent(o, name) then n == 0
    else
      && o[name].Num? && o[name].text != "" && AllDigits(o[name].text)
      && n == DigitsValue(o[name].text) <= 18446744073709551615
  }

  predicate IntegerIn(o: map<string, Json>, name: string, n: int) {
    if Absent(o, name) then n == 0
    else
      && o[name].Num? && Numeral(o[name].text)
      && -9223372036854775808 <= n == NumeralValue(o[name].text) <= 9223372036854775807
  }

  predicate FileIs(v: Json, f: FileEntry) {
    if v == Null then f == FileEntry("", "", 0)
    else
      && v.Obj?
      && TextIn(v.members, "path", f.path) && TextIn(v.members, "sha256", f.sha256)
      && IntegerIn(v.members, "size", f.size)
  }

  predicate FilesIn(o: map<string, Json>, name: string, files: seq<FileEntry>) {
    if Absent(o, name) then files == []
    else
      && o[name].Arr? && |o[name].items| == |files|
      && forall i | 0 <= i < |files| :: FileIs(o[name].items[i], files[i])
  }

  predicate MetadataIn(o: map<string, Json>, name: string, metadata: map<string, string>) {
    if Absent(o, name) then metadata == map[]
    else
      && o[name].Obj? && o[name].members.Keys == metadata.Keys
      && forall k | k in metadata :: TextIn(o[name].members, k, metadata[k])
  }

  // A missing or null member leaves the zero value, and members of other names do not matter.
  predicate ManifestIn(o: map<string, Json>, m: Manifest) {
    && TextIn(o, "member_id", m.memberId)
    && NaturalIn(o, "version", m.version)
    && TextIn(o, "timestamp", m.timestamp)
    && FilesIn(o, "files", m.files)
    && MetadataIn(o, "metadata", m.metadata)
  }

  lemma {:induction false} DecodeFileExactly(v: Json, f: FileEntry)
    ensures DecodeFile(v) == Some(f) <==> FileIs(v, f)
  {
    if v.Obj? && Field(v.members, "size").Num? {
      ParseIntReads(Field(v.members, "size").text, f.size);
    }
  }

  lemma {:induction false} DecodeItemsExactly(items: seq<Json>, files: seq<FileEntry>)
    ensures DecodeFileItems(items) == Some(files) <==>
      |items| == |files| && forall i | 0 <= i < |files| :: FileIs(items[i], files[i])
  {
    if items != [] && files != [] {
      DecodeFileExactly(items[0], files[0]);
      DecodeItemsExactly(items[1..], files[1..]);
      assert [files[0]] + files[1..] == files;
      assert forall i | 0 < i < |files| :: files[i] == files[1..][i - 1];
      assert |items| == |files| ==> forall i | 0 < i < |items| :: items[i] == items[1..][i - 1];
    }
  }

  lemma {:induction false} DecodeMetadataExactly(v: Json, metadata: map<string, string>)
    requires v.Obj?
    ensures DecodeMetadata(v) == Some(metadata) <==>
      v.members.Keys == metadata.Keys && forall k | k in metadata :: TextIn(v.members, k, metadata[k])
  {
    if v.members.Keys == metadata.Keys && forall k | k in metadata :: TextIn(v.members, k, metadata[k]) {
      forall k | k in v.members ensures DecodeString(v.members[k]) == Some(metadata[k]) {
        assert TextIn(v.members, k, metadata[k]);
      }
      assert DecodeMetadata(v).value == metadata;
    }
  }

  // A manifest is read from an object exactly if each of its fields is what the member of its name says.
  lemma {:induction false} DecodesExactly(o: map<string, Json>, m: Manifest)
    ensures DecodeManifest(Obj(o)) == Some(m) <==> ManifestIn(o, m)
  {
    assert DecodeString(Field(o, "member_id")) == Some(m.memberId) <==> TextIn(o, "member_id", m.memberId);
    assert DecodeUint(Field(o, "version")) == Some(m.version) <==> NaturalIn(o, "version", m.version);
    assert DecodeString(Field(o, "timestamp")) == Some(m.timestamp) <==> TextIn(o, "timestamp", m.timestamp);
    if Field(o, "files").Arr? {
      DecodeItemsExactly(Field(o, "files").items, m.files);
    }
    if Field(o, "metadata").Obj? {
      DecodeMetadataExactly(Field(o, "metadata"), m.metadata);
    }
    DecodeByFields(o, m);
  }

  lemma {:induction false} DecodeByFields(o: map<string, Json>, m: Manifest)
    ensures DecodeManifest(Obj(o)) == Some(m) <==>
      && DecodeString(Field(o, "member_id")) == Some(m.memberId)
      && DecodeUint(Field(o, "version")) == Some(m.version)
      && DecodeString(Field(o, "timestamp")) == Some(m.timestamp)
      && DecodeFiles(Field(o, "files")) == Some(m.files)
      && DecodeMetadata(Field(o, "metadata")) == Some(m.metadata)
  {
  }

  /* What verification tells about bytes from anywhere */

  // The document is an object with this payload and this signature.
  ghost predicate Carries(data: Bytes, payload: Json, signature: string) {
    match ParseDocument(Utf8.Decode(data))
    case Some(Obj(o)) => "manifest" in o && o["manifest"] == payload && TextIn(o, "signature", signature)
    case _ => false
  }

  // The signature is 64 bytes that the key accepts for the canonical bytes of the payload.
  ghost predicate SignedBy(p: Primitives, pub: Key, payload: Json, signature: string) {
    match p.decode64(signature)
    case Some(sig) => |sig| == 64 && p.verify(pub, Utf8.Encode(Text(payload)), sig)
    case None => false
  }

  lemma {:induction false} CarriesEnvelope(data: Bytes, payload: Json, signature: string)
    ensures ParseEnvelope(data, "manifest") == Some(Envelope(Some(payload), signature)) <==>
      Carries(data, payload, signature)
  {
  }

  // The whole check, for any bytes, told from their parse: the size, the signature over the canonical
  // bytes of the payload as it was received, and what the payload says of the manifest. Members of the
  // payload that are unknown count towards the signature and are otherwise passed over.
  lemma {:induction false} VerifiesExactly(p: Primitives, data: Bytes, pub: Key, m: Manifest)
    ensures VerifyManifestBytes(p, data, pub) == Ok(m) <==>
      && |data| <= 1048576
      && ValidManifest(p, m)
      && exists o, signature :: Accepted(p, data, pub, o, signature) && ManifestIn(o, m)
  {
    if VerifyManifestBytes(p, data, pub) == Ok(m) {
      var env := ParseEnvelope(data, "manifest").value;
      CarriesEnvelope(data, env.payload.value, env.signature);
      FailsIffUnsupported(env.payload.value);
      NullIsNoManifest(p);
      DecodesExactly(env.payload.value.members, m);
      assert Accepted(p, data, pub, env.payload.value.members, env.signature);
    }
    if |data| <= 1048576 && ValidManifest(p, m) {
      forall o, signature | Accepted(p, data, pub, o, signature) && ManifestIn(o, m)
        ensures VerifyManifestBytes(p, data, pub) == Ok(m)
      {
        CarriesEnvelope(data, Obj(o), signature);
        FailsIffUnsupported(Obj(o));
        DecodesExactly(o, m);
      }
    }
  }

  ghost predicate Accepted(p: Primitives, data: Bytes, pub: Key, o: map<string, Json>, signature: string) {
    Carries(data, Obj(o), signature) && Supported(Obj(o)) && SignedBy(p, pub, Obj(o), signature)
  }

  // Of a document within the limit that has a payload and a signature: which check it fails.
  lemma {:induction false} RejectedExactly(p: Primitives, data: Bytes, pub: Key, v: Json, signature: string)
    requires Carries(data, v, signature) && |data| <= 1048576
    ensures
      var r := VerifyManifestBytes(p, data, pub);
      var bytes := p.decode64(signature).Some? && |p.decode64(signature).value| == 64;
      && (r.Err? && r.error.NotCanonical? <==> !Supported(v))
      && (r == Err(BadSignatureEncoding) <==> Supported(v) && !bytes)
      && (r == Err(BadSignature) <==> Supported(v) && bytes && !SignedBy(p, pub, v, signature))
      && (r == Err(Undecodable) <==>
           Supported(v) && SignedBy(p, pub, v, signature) && DecodeManifest(v).None?)
      && (r == Err(StructurallyInvalid) <==>
           && Supported(v) && SignedBy(p, pub, v, signature)
           && DecodeManifest(v).Some? && !ValidManifest(p, DecodeManifest(v).value))
      && r != Err(DocumentTooLarge) && r != Err(BadEnvelope) && r != Err(NoPayload)
  {
    CarriesEnvelope(data, v, signature);
    FailsIffUnsupported(v);
  }

  // The document is null, or an object with a signature or none but without a payload.
  predicate WithoutPayload(data: Bytes) {
    match ParseDocument(Utf8.Decode(data))
    case Some(Null) => true
    case Some(Obj(o)) => "manifest" !in o && (Absent(o, "signature") || o["signature"].Str?)
    case _ => false
  }

  // Too large a document, one without payload, and one that is no envelope at all is refused for that.
  lemma {:induction false} RefusedUnread(p: Primitives, data: Bytes, pub: Key)
    ensures VerifyManifestBytes(p, data, pub) == Err(DocumentTooLarge) <==> |data| > 1048576
    ensures VerifyManifestBytes(p, data, pub) == Err(NoPayload) <==> |data| <= 1048576 && WithoutPayload(data)
    ensures |data| <= 1048576 && !WithoutPayload(data) && !(exists v, signature :: Carries(data, v, signature)) ==>
      VerifyManifestBytes(p, data, pub) == Err(BadEnvelope)
  {
    if ParseEnvelope(data, "manifest").Some? && ParseEnvelope(data, "manifest").value.payload.Some? {
      var env := ParseEnvelope(data, "manifest").value;
      CarriesEnvelope(data, env.payload.value, env.signature);
    }
  }

  // Objects that differ in a member have different canonical bytes, whatever the member is.
  lemma {:induction false} EveryMemberIsSigned(o: map<string, Json>, o': map<string, Json>, name: string)
    requires Supported(Obj(o)) && Supported(Obj(o'))
    requires (name in o) != (name in o') || (name in o && Normal(o[name]) != Normal(o'[name]))
    ensures Utf8.Encode(Text(Obj(o))) != Utf8.Encode(Text(Obj(o')))
  {
    BytesDetermineValue(Obj(o), Obj(o'));
    var n, n' := Normal(Obj(o)).members, Normal(Obj(o')).members;
    assert (name in n <==> name in o) && (name in n' <==> name in o');
    assert name in o && name in o' ==> n[name] == Normal(o[name]) && n'[name] == Normal(o'[name]);
  }

  // A member that is not a field of the manifest does not change what is read.
  lemma {:induction false} UnknownMembersArePassedOver(o: map<string, Json>, name: string, v: Json)
    requires name !in {"member_id", "version", "timestamp", "files", "metadata"}
    ensures DecodeManifest(Obj(o[name := v])) == DecodeManifest(Obj(o))
  {
    assert forall field | field != name :: Field(o[name := v], field) == Field(o, field);
  }

  lemma {:induction false} NullIsNoManifest(p: Primitives)
    ensures DecodeManifest(Null).Some? && !ValidManifest(p, DecodeManifest(Null).value)
  {
  }

  lemma {:induction false} DecodeFilesOfNormal(items: seq<Json>)
    requires DecodeFileItems(items).Some?
    ensures DecodeFileItems(seq(|items|, i requires 0 <= i < |items| => Normal(items[i]))) == DecodeFileItems(items)
  {
    if items != [] {
      var normal := seq(|items|, i requires 0 <= i < |items| => Normal(items[i]));
      var rest := items[1..];
      assert normal[1..] == seq(|rest|, i requires 0 <= i < |rest| => Normal(rest[i]));
      DecodeFilesOfNormal(rest);
      DecodeFileOfNormal(items[0]);
    }
  }

  lemma {:induction false} DecodeFileOfNormal(v: Json)
    requires DecodeFile(v).Some?
    ensures DecodeFile(Normal(v)) == DecodeFile(v)
  {
    if v.Obj? {
      var size := Field(v.members, "size");
      assert Field(Normal(v).members, "size") == Normal(size);
      assert Field(Normal(v).members, "path") == Normal(Field(v.members, "path"));
      assert Field(Normal(v).members, "sha256") == Normal(Field(v.members, "sha256"));
      if size.Num? {
        DecodeNumberOfNormal(size.text);
      }
    }
  }

  lemma {:induction false} DecodeNumberOfNormal(text: string)
    ensures ParseInt(text).Some? ==> ParseInt(NormalNumber(text)) == ParseInt(text)
    ensures ParseUint(text).Some? ==> ParseUint(NormalNumber(text)) == ParseUint(text)
  {
    if NumberError(text).None? {
      var n := ParseInt(text).value;
      ParseFormatInt(n);
      if ParseUint(text).Some? {
        assert text[0] != '-';
        ParseFormatNat(n);
      }
    }
  }

  lemma {:induction false} DecodeLeavesOfNormal(v: Json)
    ensures DecodeString(Normal(v)) == DecodeString(v)
    ensures DecodeUint(v).Some? ==> DecodeUint(Normal(v)) == DecodeUint(v)
  {
    if v.Num? {
      DecodeNumberOfNormal(v.text);
    }
  }

  lemma {:induction false} DecodeMetadataOfNormal(v: Json)
    requires DecodeMetadata(v).Some?
    ensures DecodeMetadata(Normal(v)) == DecodeMetadata(v)
  {
    if v.Obj? {
      forall k | k in v.members ensures DecodeString(Normal(v.members[k])) == DecodeString(v.members[k]) {
        DecodeLeavesOfNormal(v.members[k]);
      }
      assert DecodeMetadata(Normal(v)).value == DecodeMetadata(v).value;
    }
  }

  lemma {:induction false} DecodeFilesMemberOfNormal(v: Json)
    requires DecodeFiles(v).Some?
    ensures DecodeFiles(Normal(v)) == DecodeFiles(v)
  {
    if v.Arr? {
      DecodeFilesOfNormal(v.items);
    }
  }

  lemma {:induction false} FieldOfNormal(v: Json, name: string)
    requires v.Obj?
    ensures Field(Normal(v).members, name) == Normal(Field(v.members, name))
  {
  }

  // A manifest decodes from the normal form of whatever it decodes from.
  lemma {:induction false} DecodeOfNormal(v: Json)
    requires DecodeManifest(v).Some?
    ensures DecodeManifest(Normal(v)) == DecodeManifest(v)
  {
    if v.Obj? {
      var o := v.members;
      FieldOfNormal(v, "member_id");
      FieldOfNormal(v, "version");
      FieldOfNormal(v, "timestamp");
      FieldOfNormal(v, "files");
      FieldOfNormal(v, "metadata");
      DecodeLeavesOfNormal(Field(o, "member_id"));
      DecodeLeavesOfNormal(Field(o, "version"));
      DecodeLeavesOfNormal(Field(o, "timestamp"));
      DecodeFilesMemberOfNormal(Field(o, "files"));
      DecodeMetadataOfNormal(Field(o, "metadata"));
      DecodeFromFields(Normal(v).members, DecodeManifest(v).value);
    }
  }

  // The payload behind a verified document.
  lemma {:induction false} VerifiedPayload(p: Primitives, data: Bytes, pub: Key) returns (v: Json)
    requires VerifyManifestBytes(p, data, pub).Ok?
    ensures ParseEnvelope(data, "manifest").Some? && ParseEnvelope(data, "manifest").value.payload == Some(v)
    ensures Supported(v) && DecodeManifest(v) == Some(VerifyManifestBytes(p, data, pub).value)
    ensures SignedPayload(data) == Some(Utf8.Encode(Text(v)))
    ensures exists sig :: p.verify(pub, Utf8.Encode(Text(v)), sig)
  {
    var env := ParseEnvelope(data, "manifest").value;
    v := env.payload.value;
    FailsIffUnsupported(v);
    assert p.verify(pub, Utf8.Encode(Text(v)), DecodeSignature(p, env.signature).value);
  }

  // What the envelope's payload decodes to is what the store reads from it.
  lemma {:induction false} StoredPayload(p: Primitives, data: Bytes, v: Json)
    requires ParseEnvelope(data, "manifest").Some? && ParseEnvelope(data, "manifest").value.payload == Some(v)
    ensures DecodeManifest(v).Some? && ValidManifest(p, DecodeManifest(v).value) ==>
      DecodeStored(p, data) == DecodeManifest(v)
  {
  }

  lemma {:induction false} VerifiedIsValid(p: Primitives, data: Bytes, pub: Key)
    requires VerifyManifestBytes(p, data, pub).Ok?
    ensures ValidManifest(p, VerifyManifestBytes(p, data, pub).value) && |data| <= MAX_MANIFEST_BYTES
  {
  }

  // Verified bytes decode to the same manifest without the signature check.
  lemma {:induction false} VerifiedIsStored(p: Primitives, data: Bytes, pub: Key)
    requires VerifyManifestBytes(p, data, pub).Ok?
    ensures DecodeStored(p, data) == Some(VerifyManifestBytes(p, data, pub).value)
    ensures ValidManifest(p, VerifyManifestBytes(p, data, pub).value) && |data| <= MAX_MANIFEST_BYTES
    ensures SignedPayload(data).Some?
    ensures exists sig :: p.verify(pub, SignedPayload(data).value, sig)
  {
    VerifiedIsValid(p, data, pub);
    var v := VerifiedPayload(p, data, pub);
    StoredPayload(p, data, v);
  }

  // Two documents with the same signed bytes carry the same manifest.
  lemma {:induction false} PayloadDeterminesManifest(p: Primitives, data: Bytes, data': Bytes, pub: Key, pub': Key)
    requires VerifyManifestBytes(p, data, pub).Ok? && VerifyManifestBytes(p, data', pub').Ok?
    requires SignedPayload(data) == SignedPayload(data')
    ensures VerifyManifestBytes(p, data, pub) == VerifyManifestBytes(p, data', pub')
  {
    var v := VerifiedPayload(p, data, pub);
    var v' := VerifiedPayload(p, data', pub');
    BytesDetermineValue(v, v');
    DecodeOfNormal(v);
    DecodeOfNormal(v');
  }

  // Whatever verifies, in whatever layout it arrives, is the manifest whose canonical bytes were signed.
  lemma {:induction false} PayloadIsManifest(p: Primitives, data: Bytes, pub: Key, m: Manifest)
    requires VerifyManifestBytes(p, data, pub).Ok? && ValidManifest(p, m)
    requires SignedPayload(data) == Some(ManifestBytes(m))
    ensures VerifyManifestBytes(p, data, pub) == Ok(m)
  {
    var v := VerifiedPayload(p, data, pub);
    ManifestJsonIsPlain(p, m);
    BytesDetermineValue(v, ManifestJson(m));
    DecodeOfNormal(v);
    DecodeManifestJson(p, m);
  }
}
