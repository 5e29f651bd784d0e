/**
 Relaying: what an agent takes from a source it answers to others byte for byte, through the store,
 the disk, crashes and reopenings, over any number of hops.
 */
module Relaying {
  import opened Basics
  import opened Manifests
  import opened Recovery
  import opened Store
  import opened Replication
  import opened Convergence
  import History
  import Fetch
  import Serve

  // One hop over the real parts: a synchronization that updates, and a request to the relay.
  method Hop(fetcher: Fetch.Fetcher, relay: Serve.Handler, key: Key, id: string, ans: Answers, n: nat)
    returns (r: Fetch.SyncResult, served: Serve.Served)
    requires relay.store == fetcher.store && fetcher.store.Valid() && fetcher.Wired() && ValidMemberID(id)
    modifies fetcher.store, fetcher.store.disk
    ensures r == Fetch.Updated ==>
      var best := Best(fetcher.trust, key, id, ans, n, StateOf(old(fetcher.store.Mem(id))).version);
      && best.Some? && ans.manifest(best.value).Some?
      && served == Serve.Content(ans.manifest(best.value).value)
  {
    ghost var held := StateOf(fetcher.store.Mem(id)).version;
    served := Serve.NotFound;
    r := fetcher.SyncFrom(key, id, ans, n);
    if r == Fetch.Updated {
      SelectedBytes(fetcher.trust, key, id, n, ans, held);
      served := relay.ServeManifest(id);
    }
  }

  lemma {:induction false} SelectedBytes(t: Trust, key: Key, id: string, n: nat, ans: Answers, held: nat)
    requires Selected(t, key, id, n, ans, held).Some?
    ensures Best(t, key, id, ans, n, held).Some?
    ensures ans.manifest(Best(t, key, id, ans, n, held).value) == Some(Selected(t, key, id, n, ans, held).value.bytes)
  {
  }

  // A relay from the moment it has stored what a synchronization selected to a moment at which it is
  // asked for the manifest.
  datatype Relay = Relay(key: Key, n: nat, ans: Answers, held: nat, life: seq<History.Moment>)

  function Last(r: Relay): History.Moment
    requires r.life != []
  {
    r.life[|r.life| - 1]
  }

  // What a running relay answers to a request for the manifest.
  function Answer(s: History.Moment): Option<Bytes> {
    if s.up && s.mem.Some? && s.mem.value.manifest.Some? then Some(s.mem.value.bytes) else None
  }

  // The relay took the envelope d, has since lived through anything that did not bring it a newer
  // version, and is running.
  ghost predicate Took(t: Trust, id: string, d: Bytes, r: Relay) {
    var c := CodecOf(t);
    var best := Best(t, r.key, id, r.ans, r.n, r.held);
    && best.Some? && r.ans.manifest(best.value) == Some(d)
    && Selected(t, r.key, id, r.n, r.ans, r.held).Some?
    && History.Life(c, id, r.life)
    && Held(c, id, r.life[0].e) == Selected(t, r.key, id, r.n, r.ans, r.held)
    && History.Version(c, id, r.life[0]) == History.Version(c, id, Last(r))
    && Last(r).up
  }

  // What it stored had the bytes d.
  lemma {:induction false} TookBytes(t: Trust, id: string, d: Bytes, r: Relay)
    requires Took(t, id, d, r)
    ensures r.life != [] && Held(CodecOf(t), id, r.life[0].e).Some?
    ensures Held(CodecOf(t), id, r.life[0].e).value.bytes == d
  {
    SelectedBytes(t, r.key, id, r.n, r.ans, r.held);
  }

  // A life that ends at the version it began with ends with the bundle it began with.
  lemma {:induction false} HeldThroughout(c: Codec, id: string, life: seq<History.Moment>)
    requires History.Life(c, id, life)
    requires History.Version(c, id, life[0]) == History.Version(c, id, life[|life| - 1])
    ensures Held(c, id, life[|life| - 1].e) == Held(c, id, life[0].e) && History.Sound(c, id, life[|life| - 1])
  {
    History.DurableMonotonicity(c, id, life, 0, |life| - 1);
  }

  // A relay whose store is sound answers the envelope that recovery would find while it is running, and
  // nothing while it is not.
  lemma {:induction false} AnswersWhatIsHeld(c: Codec, id: string, s: History.Moment)
    requires History.Sound(c, id, s)
    ensures Answer(s) == if s.up && Held(c, id, s.e).Some? then Some(Held(c, id, s.e).value.bytes) else None
  {
    if s.up {
      HeldIsKnown(c, id, s.e, s.mem, false, true);
    }
  }

  lemma {:induction false} RelayIsVerbatim(t: Trust, id: string, d: Bytes, r: Relay)
    requires Took(t, id, d, r)
    ensures Answer(Last(r)) == Some(d)
  {
    TookBytes(t, id, d, r);
    HeldThroughout(CodecOf(t), id, r.life);
    AnswersWhatIsHeld(CodecOf(t), id, Last(r));
  }

  // Convergence takes an honest holder to answer from its replica. So does the handler of a running agent
  // while nothing is stored, to a request for the manifest and to one for a blob.
  method AnswerFromReplica(relay: Serve.Handler, id: string, hash: string)
    returns (manifest: Serve.Served, blob: Serve.Served)
    requires relay.store.Valid() && relay.Clean(id) && relay.Knows(id) && ValidMemberID(id) && ValidSHA256Hex(hash)
    modifies relay.store, relay.store.disk
    ensures
      var held := Replica(Held(relay.store.codec, id, old(relay.store.disk.At(id))), old(relay.store.SeenVersion(id)));
      && manifest == ServedOf(RelayManifest(held))
      && blob == ServedOf(RelayBlob(held, hash))
  {
    BlobIsListed(relay, id, hash);
    manifest := relay.ServeManifest(id);
    blob := relay.ServeBlob(id, hash, true);
  }

  lemma {:induction false} BlobIsListed(relay: Serve.Handler, id: string, hash: string)
    requires relay.store.Valid() && relay.Clean(id) && relay.Knows(id)
    ensures
      var held := Replica(Held(relay.store.codec, id, relay.store.disk.At(id)), relay.store.SeenVersion(id));
      RelayBlob(held, hash).Some? <==> relay.store.BlobPath(id, hash).Some?
  {
    assert relay.store.MemberValid(id);
    HeldIsKnown(
      relay.store.codec, id, relay.store.disk.At(id), relay.store.Mem(id), id in relay.store.skipped,
      relay.store.durable);
    if relay.store.BlobPath(id, hash).Some? {
      var f :| f in relay.store.Manifest(id).value.1.files && f.sha256 == hash;
      relay.ListedIsThere(id, f);
    }
  }

  function ServedOf(answer: Option<Bytes>): Serve.Served {
    if answer.Some? then Serve.Content(answer.value) else Serve.NotFound
  }

  // The next relay took what this one answered.
  ghost predicate Follows(t: Trust, id: string, r: Relay, next: Relay) {
    r.life != [] && Answer(Last(r)).Some? && Took(t, id, Answer(Last(r)).value, next)
  }

  ghost predicate Chain(t: Trust, id: string, d: Bytes, relays: seq<Relay>) {
    && |relays| > 0 && Took(t, id, d, relays[0])
    && forall j | 0 < j < |relays| :: Follows(t, id, relays[j - 1], relays[j])
  }

  // However long the chain, and whatever its relays lived through, each of them answers the envelope
  // the first one took.
  lemma {:induction false} RelaysAreVerbatim(t: Trust, id: string, d: Bytes, relays: seq<Relay>, j: nat)
    requires Chain(t, id, d, relays) && j < |relays|
    ensures Took(t, id, d, relays[j]) && Answer(Last(relays[j])) == Some(d)
  {
    if j > 0 {
      RelaysAreVerbatim(t, id, d, relays, j - 1);
      assert Follows(t, id, relays[j - 1], relays[j]);
    }
    RelayIsVerbatim(t, id, d, relays[j]);
  }
}
