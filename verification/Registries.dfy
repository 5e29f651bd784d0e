/**
 The signed membership list: lookup of members and keys, and the watcher that swaps in a newer list
 only after verifying it.
 */
module Registries {
  import opened Basics
  import opened Manifests
  import Jcs

  datatype Member = Member(id: string, publicKey: string, origin: string, agent: string, fallbackHost: string)

  datatype Registry = Registry(wreathId: string, version: nat, timestamp: string, members: seq<Member>)

  predicate DistinctIds(members: seq<Member>) {
    forall i, j | 0 <= i < j < |members| :: members[i].id != members[j].id
  }

  // The first member with this id.
  method FindMember(reg: Registry, id: string) returns (r: Option<Member>)
    ensures r == Lookup(reg.members, id)
  {
    for i := 0 to |reg.members|
      invariant Lookup(reg.members, id) == Lookup(reg.members[i..], id)
    {
      assert reg.members[i..][1..] == reg.members[i + 1..];
      if reg.members[i].id == id {
        return Some(reg.members[i]);
      }
    }
    return None;
  }

  function Lookup(members: seq<Member>, id: string): (r: Option<Member>)
    ensures r.Some? ==> r.value in members && r.value.id == id
  {
    if members == [] then None
    else if members[0].id == id then Some(members[0])
    else Lookup(members[1..], id)
  }

  // With distinct ids the member found is the only one.
  lemma {:induction false} LookupFindsTheOnly(members: seq<Member>, m: Member)
    requires DistinctIds(members) && m in members
    ensures Lookup(members, m.id) == Some(m)
  {
    if members[0].id == m.id {
      var i :| 0 <= i < |members| && members[i] == m;
      assert i == 0;
    } else {
      LookupFindsTheOnly(members[1..], m);
    }
  }

  const MAX_MEMBERS := 512

  // baseUrl stands for the check that a URL is absolute http(s) without query or fragment.
  predicate ValidMember(p: Primitives, baseUrl: string -> bool, m: Member) {
    && ValidMemberID(m.id)
    && DecodePublicKey(p, m.publicKey).Some?
    && baseUrl(m.origin)
    && (m.agent != "" ==> baseUrl(m.agent))
  }

  predicate ValidRegistry(p: Primitives, baseUrl: string -> bool, reg: Registry) {
    && ValidMemberID(reg.wreathId)
    && 1 <= reg.version <= Jcs.MAX_SAFE_INTEGER
    && p.rfc3339(reg.timestamp)
    && 1 <= |reg.members| <= MAX_MEMBERS
    && (forall i | 0 <= i < |reg.members| :: ValidMember(p, baseUrl, reg.members[i]))
    && DistinctIds(reg.members)
  }

  method Validate(p: Primitives, baseUrl: string -> bool, reg: Registry) returns (ok: bool)
    ensures ok == ValidRegistry(p, baseUrl, reg)
  {
    if !ValidMemberID(reg.wreathId) || reg.version < 1 || reg.version > Jcs.MAX_SAFE_INTEGER
       || !p.rfc3339(reg.timestamp) || |reg.members| == 0 || |reg.members| > MAX_MEMBERS {
      return false;
    }
    var seen: set<string> := {};
    for i := 0 to |reg.members|
      invariant seen == set j | 0 <= j < i :: reg.members[j].id
      invariant forall j | 0 <= j < i :: ValidMember(p, baseUrl, reg.members[j])
      invariant forall j, k | 0 <= j < k < i :: reg.members[j].id != reg.members[k].id
    {
      var m := reg.members[i];
      if !ValidMemberID(m.id) {
        return false;
      }
      if m.id in seen {
        ghost var j :| 0 <= j < i && reg.members[j].id == m.id;
        return false;
      }
      seen := seen + {m.id};
      if DecodePublicKey(p, m.publicKey).None? || !baseUrl(m.origin) || (m.agent != "" && !baseUrl(m.agent)) {
        return false;
      }
    }
    return true;
  }

  function DecodePublicKey(p: Primitives, s: string): Option<Key> {
    match p.decode64(s)
    case None => None
    case Some(b) => if |b| == PUBLIC_KEY_SIZE then Some(b) else None
  }

  function MemberKey(p: Primitives, reg: Registry, id: string): Option<Key> {
    match Lookup(reg.members, id)
    case None => None
    case Some(m) => DecodePublicKey(p, m.publicKey)
  }

  // A listed member's key is its own public key, if that decodes to 32 bytes.
  lemma {:induction false} MemberKeyIsOwn(p: Primitives, reg: Registry, m: Member, k: Key)
    requires DistinctIds(reg.members) && m in reg.members
    ensures MemberKey(p, reg, m.id) == Some(k) <==> p.decode64(m.publicKey) == Some(k) && |k| == 32
  {
    LookupFindsTheOnly(reg.members, m);
  }

  lemma {:induction false} ListedKey(p: Primitives, reg: Registry, id: string)
    requires DistinctIds(reg.members)
    ensures forall m, k | m in reg.members && m.id == id && p.decode64(m.publicKey) == Some(k) && |k| == 32 ::
      Lookup(reg.members, id) == Some(m) && MemberKey(p, reg, id) == Some(k)
    ensures forall m | m in reg.members && m.id == id ::
      MemberKey(p, reg, id).None? <==> p.decode64(m.publicKey).None? || |p.decode64(m.publicKey).value| != 32
  {
    forall m | m in reg.members && m.id == id
      ensures Lookup(reg.members, id) == Some(m)
      ensures forall k :: MemberKey(p, reg, id) == Some(k) <==> p.decode64(m.publicKey) == Some(k) && |k| == 32
    {
      LookupFindsTheOnly(reg.members, m);
      forall k ensures MemberKey(p, reg, id) == Some(k) <==> p.decode64(m.publicKey) == Some(k) && |k| == 32 {
        MemberKeyIsOwn(p, reg, m, k);
      }
    }
  }

  // An id is unknown exactly if nobody has it, and then it has no key.
  lemma {:induction false} UnknownHasNoKey(p: Primitives, reg: Registry, id: string)
    ensures Lookup(reg.members, id).None? <==> forall m | m in reg.members :: m.id != id
    ensures (forall m | m in reg.members :: m.id != id) ==> MemberKey(p, reg, id).None?
  {
    LookupMisses(reg.members, id);
  }

  lemma {:induction false} LookupMisses(members: seq<Member>, id: string)
    ensures Lookup(members, id).None? <==> forall m | m in members :: m.id != id
  {
    if members != [] {
      LookupMisses(members[1..], id);
    }
  }

  // The rules of a registry spelled out, limits and all.
  lemma {:induction false} ValidMeans(p: Primitives, baseUrl: string -> bool, reg: Registry)
    ensures ValidRegistry(p, baseUrl, reg) <==>
      && ValidMemberID(reg.wreathId)
      && 1 <= reg.version <= 9007199254740991
      && p.rfc3339(reg.timestamp)
      && 1 <= |reg.members| <= 512
      && (forall m | m in reg.members ::
            && ValidMemberID(m.id)
            && p.decode64(m.publicKey).Some? && |p.decode64(m.publicKey).value| == 32
            && baseUrl(m.origin) && (m.agent == "" || baseUrl(m.agent)))
      && (forall i, j | 0 <= i < j < |reg.members| :: reg.members[i].id != reg.members[j].id)
  {
    assert forall i | 0 <= i < |reg.members| :: reg.members[i] in reg.members;
  }

  /* The watcher of internal/registry/registry.go */

  datatype ReloadError = Unreadable | Rejected | RollbackRejected

  // A look at the registry file: its modification time, and what reading and verifying it gives.
  datatype Glance = Glance(mtime: Option<int>, loaded: Option<Registry>)

  datatype Watched = Watched(reg: Registry, mtime: int)

  // What a reload does with what it finds.
  function AfterReload(w: Watched, g: Glance): (Watched, Option<ReloadError>) {
    if g.mtime.None? then (w, Some(Unreadable))
    else if g.mtime.value == w.mtime then (w, None)
    else if g.loaded.None? then (w, Some(Rejected))
    else if g.loaded.value.version < w.reg.version then (w, Some(RollbackRejected))
    else (Watched(g.loaded.value, g.mtime.value), None)
  }

  predicate Changed(mtime: int, g: Glance) {
    g.mtime.Some? && g.mtime.value != mtime
  }

  class Watcher {
    var reg: Registry
    var mtime: int

    function State(): Watched
      reads this
    {
      Watched(reg, mtime)
    }

    constructor (first: Registry, mtime: int)
      ensures State() == Watched(first, mtime)
    {
      this.reg := first;
      this.mtime := mtime;
    }

    // Any failure keeps the registry in force. It is replaced exactly by a registry that verified, is
    // not older, and comes from a file that looks changed.
    method Reload(g: Glance) returns (err: Option<ReloadError>)
      modifies this
      ensures err.Some? ==> State() == old(State())
      ensures old(reg.version) <= reg.version
      ensures
        if Changed(old(mtime), g) && g.loaded.Some? && g.loaded.value.version >= old(reg.version)
        then err.None? && g.loaded == Some(reg) && g.mtime == Some(mtime)
        else State() == old(State())
      ensures err == Some(Unreadable) <==> g.mtime.None?
      ensures err == Some(Rejected) <==> Changed(old(mtime), g) && g.loaded.None?
      ensures err == Some(RollbackRejected) <==>
        Changed(old(mtime), g) && g.loaded.Some? && g.loaded.value.version < old(reg.version)
      ensures (State(), err) == AfterReload(old(State()), g)
    {
      if g.mtime.None? {
        return Some(Unreadable);
      }
      if g.mtime.value == mtime {
        return None;
      }
      if g.loaded.None? {
        return Some(Rejected);
      }
      if g.loaded.value.version < reg.version {
        return Some(RollbackRejected);
      }
      reg := g.loaded.value;
      mtime := g.mtime.value;
      return None;
    }
  }

  function AfterReloads(w: Watched, glances: seq<Glance>): Watched {
    if glances == [] then w else AfterReload(AfterReloads(w, glances[..|glances| - 1]), glances[|glances| - 1]).0
  }

  // Through any series of reloads the version never goes down, and the registry in force is the
  // first one or one that a reload found valid.
  lemma {:induction false} ReloadsAreMonotone(w: Watched, glances: seq<Glance>, n: nat)
    requires n <= |glances|
    ensures AfterReloads(w, glances[..n]).reg.version <= AfterReloads(w, glances).reg.version
    ensures AfterReloads(w, glances).reg == w.reg
      || exists i :: 0 <= i < |glances| && glances[i].loaded == Some(AfterReloads(w, glances).reg)
    decreases |glances|
  {
    if glances != [] {
      var before := glances[..|glances| - 1];
      if n < |glances| {
        assert before[..n] == glances[..n];
        ReloadsAreMonotone(w, before, n);
      } else {
        assert glances[..n] == glances;
        ReloadsAreMonotone(w, before, 0);
      }
      assert AfterReloads(w, before).reg == w.reg
        || exists i :: 0 <= i < |before| && before[i].loaded == Some(AfterReloads(w, before).reg);
      if i :| 0 <= i < |before| && before[i].loaded == Some(AfterReloads(w, before).reg) {
        assert glances[i].loaded == Some(AfterReloads(w, before).reg);
      }
    }
  }

  // A file that verifies and is not older is in force after the reload if it looks changed, and a
  // second look at the same file changes nothing, whatever the first one did.
  lemma {:induction false} ReloadSettles(w: Watched, g: Glance)
    ensures AfterReload(AfterReload(w, g).0, g).0 == AfterReload(w, g).0
    ensures g.mtime.Some? && g.mtime.value != w.mtime && g.loaded.Some? ==>
      (AfterReload(w, g).0.reg == g.loaded.value <==>
        g.loaded.value.version >= w.reg.version || g.loaded.value == w.reg)
    ensures AfterReload(w, g).1.Some? ==>
      AfterReload(w, g).0 == w && AfterReload(AfterReload(w, g).0, g).1 == AfterReload(w, g).1
  {
  }

  // Once a version is in force, a key listed only by older registries is gone for good.
  lemma {:induction false} RotatedKeysStayOut(p: Primitives, w: Watched, glances: seq<Glance>, id: string, retired: Key)
    requires MemberKey(p, w.reg, id) != Some(retired)
    requires forall g | g in glances && g.loaded.Some? ::
      g.loaded.value.version >= w.reg.version ==> MemberKey(p, g.loaded.value, id) != Some(retired)
    ensures MemberKey(p, AfterReloads(w, glances).reg, id) != Some(retired)
  {
    ReloadsAreMonotone(w, glances, 0);
    assert AfterReloads(w, glances[..0]) == w;
  }
}
