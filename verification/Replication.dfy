/**
 One synchronization of one member as a function of what the sources answer: the highest validly
 signed version wins, and its blobs may come from any source.
 */
module Replication {
  import opened Basics
  import opened Manifests
  import opened Recovery

  // The trusted operations as this layer uses them. payload is what a signature covers.
  datatype Trust = Trust(
    verify: (Bytes, Key) -> Option<Manifest>,
    decode: Bytes -> Option<Manifest>,
    payload: Bytes -> Option<Bytes>,
    hash: Bytes -> string)

  function CodecOf(t: Trust): Codec {
    Codec(t.decode, t.hash)
  }

  ghost predicate Decodes(t: Trust, d: Bytes, k: Key) {
    t.verify(d, k).Some? ==>
      && t.decode(d) == t.verify(d, k)
      && t.payload(d).Some?
      && |d| <= MAX_MANIFEST_BYTES
      && (forall f | f in t.verify(d, k).value.files :: 0 <= f.size <= MAX_BLOB_BYTES)
  }

  ghost predicate SamePayloadSameManifest(t: Trust, d: Bytes, k: Key, d': Bytes, k': Key) {
    t.verify(d, k).Some? && t.verify(d', k').Some? && t.payload(d) == t.payload(d') ==>
      t.verify(d, k) == t.verify(d', k')
  }

  ghost predicate Sensible(t: Trust) {
    && (forall d, k :: Decodes(t, d, k))
    && (forall d, k, d', k' :: SamePayloadSameManifest(t, d, k, d', k'))
    && (forall d :: t.decode(d).Some? ==> 1 <= t.decode(d).value.version < UINT64_LIMIT)
  }

  // What the sources answer during one synchronization: source i to the manifest request, and
  // source i to the request for the blob of file k.
  datatype Answers = Answers(manifest: nat -> Option<Bytes>, blob: (nat, nat) -> Option<Bytes>)

  function Limited(answer: Option<Bytes>, limit: nat): Option<Bytes> {
    if answer.Some? && |answer.value| <= limit then answer else None
  }

  // The manifest source i offers for the member, if it is validly signed and for that member.
  function Offer(t: Trust, key: Key, id: string, ans: Answers, i: nat): Option<Manifest> {
    match Limited(ans.manifest(i), MAX_MANIFEST_BYTES)
    case None => None
    case Some(d) =>
      match t.verify(d, key)
      case None => None
      case Some(m) => if m.memberId == id then Some(m) else None
  }

  function OfferBytes(ans: Answers, i: nat): Bytes
    requires Limited(ans.manifest(i), MAX_MANIFEST_BYTES).Some?
  {
    ans.manifest(i).value
  }

  // The source that wins among the first n, if any beats the version held.
  function Best(t: Trust, key: Key, id: string, ans: Answers, n: nat, held: nat): (best: Option<nat>)
    ensures best.Some? ==> best.value < n && Offer(t, key, id, ans, best.value).Some?
  {
    if n == 0 then None
    else
      var before := Best(t, key, id, ans, n - 1, held);
      var offer := Offer(t, key, id, ans, n - 1);
      if offer.Some? && offer.value.version > BestVersion(t, key, id, ans, before, held) then Some(n - 1) else before
  }

  function BestVersion(t: Trust, key: Key, id: string, ans: Answers, best: Option<nat>, held: nat): nat
    requires best.Some? ==> Offer(t, key, id, ans, best.value).Some?
  {
    if best.Some? then Offer(t, key, id, ans, best.value).value.version else held
  }

  // The mark after all of the first n sources have been heard.
  function MarkAfter(t: Trust, key: Key, id: string, ans: Answers, n: nat, seen: nat): nat {
    if n == 0 then seen
    else
      var offer := Offer(t, key, id, ans, n - 1);
      var before := MarkAfter(t, key, id, ans, n - 1, seen);
      if offer.Some? then Max(before, offer.value.version) else before
  }

  // The winner is the first source with the highest of all valid offers, and beats what is held.
  lemma {:induction false} BestIsFirstHighest(t: Trust, key: Key, id: string, ans: Answers, n: nat, held: nat)
    ensures
      var best := Best(t, key, id, ans, n, held);
      var version := BestVersion(t, key, id, ans, best, held);
      && (best.Some? ==> version > held)
      && (forall i | 0 <= i < n && Offer(t, key, id, ans, i).Some? ::
            Offer(t, key, id, ans, i).value.version <= version)
      && (best.Some? ==> forall i | 0 <= i < best.value && Offer(t, key, id, ans, i).Some? ::
            Offer(t, key, id, ans, i).value.version < version)
  {
    if n > 0 {
      BestIsFirstHighest(t, key, id, ans, n - 1, held);
    }
  }

  lemma {:induction false} MarkIsHighest(t: Trust, key: Key, id: string, ans: Answers, n: nat, seen: nat)
    ensures MarkAfter(t, key, id, ans, n, seen) >= seen
    ensures forall i | 0 <= i < n && Offer(t, key, id, ans, i).Some? ::
      Offer(t, key, id, ans, i).value.version <= MarkAfter(t, key, id, ans, n, seen)
    ensures
      var mark := MarkAfter(t, key, id, ans, n, seen);
      || mark == seen
      || (exists i :: 0 <= i < n && Offer(t, key, id, ans, i).Some? && Offer(t, key, id, ans, i).value.version == mark)
  {
    if n > 0 {
      MarkIsHighest(t, key, id, ans, n - 1, seen);
    }
  }

  /* Blobs */

  // The body a source answered for file k, if it is the right one.
  function BlobFrom(t: Trust, ans: Answers, k: nat, f: FileEntry, i: nat): Option<Bytes> {
    var body := Limited(ans.blob(k, i), MAX_BLOB_BYTES);
    if body.Some? && t.hash(body.value) == f.sha256 && |body.value| == f.size then body else None
  }

  function FirstBlob(t: Trust, ans: Answers, k: nat, f: FileEntry, order: seq<nat>): (r: Option<Bytes>)
    ensures r.Some? ==> t.hash(r.value) == f.sha256 && |r.value| == f.size
  {
    if order == [] then None
    else if BlobFrom(t, ans, k, f, order[0]).Some? then BlobFrom(t, ans, k, f, order[0])
    else FirstBlob(t, ans, k, f, order[1..])
  }

  function Others(n: nat, skip: nat): seq<nat> {
    if n == 0 then [] else Others(n - 1, skip) + if n - 1 != skip then [n - 1] else []
  }

  function Order(n: nat, preferred: nat): seq<nat> {
    [preferred] + Others(n, preferred)
  }

  lemma {:induction false} OthersAreTheRest(n: nat, skip: nat)
    ensures forall i: nat :: i in Others(n, skip) <==> i < n && i != skip
  {
    if n > 0 {
      OthersAreTheRest(n - 1, skip);
    }
  }

  // A blob is found exactly when some source of the order answers it rightly.
  lemma {:induction false} FirstBlobFinds(t: Trust, ans: Answers, k: nat, f: FileEntry, order: seq<nat>)
    ensures FirstBlob(t, ans, k, f, order).Some? <==> exists i :: i in order && BlobFrom(t, ans, k, f, i).Some?
  {
    if order != [] {
      FirstBlobFinds(t, ans, k, f, order[1..]);
    }
  }

  // The source's answer for file k is within the limit and has the listed hash and size.
  predicate RightAnswer(t: Trust, ans: Answers, k: nat, f: FileEntry, i: nat) {
    match ans.blob(k, i)
    case None => false
    case Some(b) => |b| <= 33554432 && t.hash(b) == f.sha256 && |b| == f.size
  }

  lemma {:induction false} FirstBlobSnoc(t: Trust, ans: Answers, k: nat, f: FileEntry, order: seq<nat>, i: nat)
    ensures FirstBlob(t, ans, k, f, order + [i]) ==
      if FirstBlob(t, ans, k, f, order).Some? then FirstBlob(t, ans, k, f, order) else BlobFrom(t, ans, k, f, i)
  {
    if order != [] {
      assert (order + [i])[1..] == order[1..] + [i];
      FirstBlobSnoc(t, ans, k, f, order[1..], i);
    }
  }

  lemma {:induction false} FirstOfOthers(t: Trust, ans: Answers, k: nat, f: FileEntry, n: nat, skip: nat, i: nat)
    requires i < n && i != skip && RightAnswer(t, ans, k, f, i)
    requires forall j | 0 <= j < i && j != skip :: !RightAnswer(t, ans, k, f, j)
    ensures FirstBlob(t, ans, k, f, Others(n, skip)) == ans.blob(k, i)
  {
    FirstBlobSnoc(t, ans, k, f, Others(n - 1, skip), n - 1);
    assert Others(n, skip) == Others(n - 1, skip) + if n - 1 != skip then [n - 1] else [];
    if i < n - 1 {
      FirstOfOthers(t, ans, k, f, n - 1, skip, i);
      assert Others(n - 1, skip) + [] == Others(n - 1, skip);
    } else {
      NoneOfOthers(t, ans, k, f, n - 1, skip);
      assert BlobFrom(t, ans, k, f, i) == ans.blob(k, i);
    }
  }

  lemma {:induction false} NoneOfOthers(t: Trust, ans: Answers, k: nat, f: FileEntry, n: nat, skip: nat)
    requires forall j | 0 <= j < n && j != skip :: !RightAnswer(t, ans, k, f, j)
    ensures FirstBlob(t, ans, k, f, Others(n, skip)).None?
  {
    if n > 0 {
      NoneOfOthers(t, ans, k, f, n - 1, skip);
      FirstBlobSnoc(t, ans, k, f, Others(n - 1, skip), n - 1);
      if n - 1 == skip {
        assert Others(n, skip) == Others(n - 1, skip);
      } else {
        assert Others(n, skip) == Others(n - 1, skip) + [n - 1];
        assert !RightAnswer(t, ans, k, f, n - 1);
      }
    }
  }

  // Which body is taken: the preferred source's if it is right, and otherwise that of the first of the
  // others whose body is right.
  lemma {:induction false} BlobTaken(t: Trust, ans: Answers, k: nat, f: FileEntry, n: nat, preferred: nat)
    ensures
      var r := FirstBlob(t, ans, k, f, Order(n, preferred));
      && (RightAnswer(t, ans, k, f, preferred) ==> r == ans.blob(k, preferred))
      && (!RightAnswer(t, ans, k, f, preferred) ==>
           && (forall i | 0 <= i < n && RightAnswer(t, ans, k, f, i)
                 && (forall j | 0 <= j < i :: !RightAnswer(t, ans, k, f, j)) :: r == ans.blob(k, i))
           && ((forall i | 0 <= i < n :: !RightAnswer(t, ans, k, f, i)) ==> r == None))
  {
    var order := Order(n, preferred);
    assert order[1..] == Others(n, preferred);
    if !RightAnswer(t, ans, k, f, preferred) {
      forall i | 0 <= i < n && RightAnswer(t, ans, k, f, i) && (forall j | 0 <= j < i :: !RightAnswer(t, ans, k, f, j))
        ensures FirstBlob(t, ans, k, f, order) == ans.blob(k, i)
      {
        FirstOfOthers(t, ans, k, f, n, preferred, i);
      }
      if forall i | 0 <= i < n :: !RightAnswer(t, ans, k, f, i) {
        NoneOfOthers(t, ans, k, f, n, preferred);
      }
    }
  }

  // The blobs of files k, k + 1, ..., or None as soon as one cannot be had.
  function Gather(
    t: Trust, ans: Answers, files: seq<FileEntry>, k: nat, n: nat, preferred: nat): Option<map<string, Bytes>>
    requires k <= |files|
    decreases |files| - k
  {
    GatherOnto(t, ans, files, k, n, preferred, map[])
  }

  function GatherOnto(
    t: Trust, ans: Answers, files: seq<FileEntry>, k: nat, n: nat, preferred: nat, blobs: map<string,
    Bytes>): Option<map<string, Bytes>>
    requires k <= |files|
    decreases |files| - k
  {
    if k == |files| then Some(blobs)
    else
      match FirstBlob(t, ans, k, files[k], Order(n, preferred))
      case None => None
      case Some(b) => GatherOnto(t, ans, files, k + 1, n, preferred, blobs[files[k].sha256 := b])
  }

  lemma {:induction false} GatherIsComplete(
    t: Trust, ans: Answers, files: seq<FileEntry>, k: nat, n: nat, preferred: nat, blobs: map<string, Bytes>)
    requires k <= |files|
    requires forall h | h in blobs :: t.hash(blobs[h]) == h
    requires forall j | 0 <= j < k :: files[j].sha256 in blobs
    ensures
      var r := GatherOnto(t, ans, files, k, n, preferred, blobs);
      r.Some? ==>
        && (forall h | h in r.value :: t.hash(r.value[h]) == h)
        && (forall f | f in files :: f.sha256 in r.value)
    decreases |files| - k
  {
    if k < |files| {
      var b := FirstBlob(t, ans, k, files[k], Order(n, preferred));
      if b.Some? {
        GatherIsComplete(t, ans, files, k + 1, n, preferred, blobs[files[k].sha256 := b.value]);
      }
    }
  }

  // If for every file some source has the right body, the bundle can be gathered.
  lemma {:induction false} GatherSucceeds(
    t: Trust, ans: Answers, files: seq<FileEntry>, k: nat, n: nat, preferred: nat, holder: nat, blobs: map<string,
    Bytes>)
    requires k <= |files| && holder < n
    requires forall j | k <= j < |files| :: BlobFrom(t, ans, j, files[j], holder).Some?
    ensures GatherOnto(t, ans, files, k, n, preferred, blobs).Some?
    decreases |files| - k
  {
    if k < |files| {
      OthersAreTheRest(n, preferred);
      assert holder in Order(n, preferred);
      FirstBlobFinds(t, ans, k, files[k], Order(n, preferred));
      var b := FirstBlob(t, ans, k, files[k], Order(n, preferred)).value;
      GatherSucceeds(t, ans, files, k + 1, n, preferred, holder, blobs[files[k].sha256 := b]);
    }
  }

  /* One synchronization */

  datatype Replica = Replica(held: Option<Bundle>, seen: nat)

  function HeldVersion(r: Replica): nat {
    if r.held.Some? then r.held.value.manifest.version else 0
  }

  // The bundle a synchronization would store.
  function Selected(t: Trust, key: Key, id: string, n: nat, ans: Answers, held: nat): Option<Bundle> {
    match Best(t, key, id, ans, n, held)
    case None => None
    case Some(i) =>
      var m := Offer(t, key, id, ans, i).value;
      match Gather(t, ans, m.files, 0, n, i)
      case None => None
      case Some(blobs) => Some(NewBundle(m, OfferBytes(ans, i), blobs))
  }

  // The replica after a synchronization; written says whether the store could write.
  function Synced(t: Trust, key: Key, id: string, n: nat, ans: Answers, r: Replica, written: bool): Replica {
    var selected := Selected(t, key, id, n, ans, HeldVersion(r));
    Replica(
      if written && selected.Some? then selected else r.held,
      MarkAfter(t, key, id, ans, n, r.seen))
  }

  // A selected bundle is verified, newer than what is held, and complete.
  lemma {:induction false} SelectedIsSound(t: Trust, key: Key, id: string, n: nat, ans: Answers, held: nat)
    requires Sensible(t) && Selected(t, key, id, n, ans, held).Some?
    ensures
      var b := Selected(t, key, id, n, ans, held).value;
      && t.verify(b.bytes, key) == Some(b.manifest) && t.decode(b.bytes) == Some(b.manifest)
      && b.manifest.memberId == id && b.manifest.version > held
      && Complete(CodecOf(t), b) && b.blobs.Keys <= Hashes(b.manifest)
      && exists i: nat :: i < n && ans.manifest(i) == Some(b.bytes)
  {
    BestIsFirstHighest(t, key, id, ans, n, held);
    var i := Best(t, key, id, ans, n, held).value;
    var m := Offer(t, key, id, ans, i).value;
    GatherIsComplete(t, ans, m.files, 0, n, i, map[]);
    assert Decodes(t, OfferBytes(ans, i), key);
  }

  // The highest of what is held and what is validly offered wins, whoever offers it and in whatever
  // order; if it cannot be had complete, nothing changes but the mark.
  lemma {:induction false} HighestWins(t: Trust, key: Key, id: string, n: nat, ans: Answers, r: Replica)
    requires Sensible(t)
    ensures
      var r' := Synced(t, key, id, n, ans, r, true);
      && HeldVersion(r) <= HeldVersion(r') && r.seen <= r'.seen
      && (forall i | 0 <= i < n && Offer(t, key, id, ans, i).Some? ::
            Offer(t, key, id, ans, i).value.version <= r'.seen)
      && (r'.held != r.held ==>
          forall i | 0 <= i < n && Offer(t, key, id, ans, i).Some? ::
            Offer(t, key, id, ans, i).value.version <= HeldVersion(r'))
      && (Best(t, key, id, ans, n, HeldVersion(r)).None? ==>
          forall i | 0 <= i < n && Offer(t, key, id, ans, i).Some? ::
            Offer(t, key, id, ans, i).value.version <= HeldVersion(r))
  {
    BestIsFirstHighest(t, key, id, ans, n, HeldVersion(r));
    MarkIsHighest(t, key, id, ans, n, r.seen);
    if Selected(t, key, id, n, ans, HeldVersion(r)).Some? {
      SelectedIsSound(t, key, id, n, ans, HeldVersion(r));
    }
  }
}
