/**
 The members directory on disk: for each member a tree of named files and directories. Every
 operation can fail or be cut short by a crash, and then leaves behind whatever it was working on
 in an arbitrary state; only a rename is all or nothing.
 */
module Disk {
  import opened Basics

  datatype Node = File(data: Bytes) | Dir(entries: Entries)

  type Entries = map<string, Node>

  datatype Outcome = Done | Failed | Crashed

  // a is what may be left of b while b is being removed.
  predicate PartOf(a: Node, b: Node) {
    match (a, b)
    case (File(x), File(y)) => x == y
    case (Dir(x), Dir(y)) => forall k | k in x :: k in y && PartOf(x[k], y[k])
    case _ => false
  }

  // The two directories have the same entries but for the given names.
  predicate SameExcept(e: Entries, f: Entries, names: set<string>) {
    && (forall k | k in e && k !in names :: k in f && f[k] == e[k])
    && (forall k | k in f && k !in names :: k in e)
  }

  predicate Shrunk(e: Entries, f: Entries, name: string) {
    SameExcept(e, f, {name}) && (name in f ==> name in e && PartOf(f[name], e[name]))
  }

  predicate Renamed(e: Entries, f: Entries, from: string, to: string) {
    from in e && f == (e - {from})[to := e[from]]
  }

  lemma {:induction false} PartOfSelf(a: Node)
    ensures PartOf(a, a)
  {
    if a.Dir? {
      forall k | k in a.entries ensures PartOf(a.entries[k], a.entries[k]) {
        PartOfSelf(a.entries[k]);
      }
    }
  }

  lemma {:induction false} ShrunkSelf(e: Entries, name: string)
    ensures Shrunk(e, e, name)
  {
    if name in e {
      PartOfSelf(e[name]);
    }
  }

  // The file name/file under a directory of e, if there is one.
  function FileIn(e: Entries, name: string, file: string): Option<Bytes> {
    if name in e && e[name].Dir? && file in e[name].entries && e[name].entries[file].File?
    then Some(e[name].entries[file].data)
    else None
  }

  function BlobIn(e: Entries, name: string, hash: string): Option<Bytes> {
    if name in e && e[name].Dir? then FileIn(e[name].entries, "blobs", hash) else None
  }

  class Members {
    var dirs: map<string, Entries>

    // How many operations have not succeeded.
    ghost var mishaps: nat

    constructor ()
      ensures dirs == map[] && mishaps == 0
    {
      dirs, mishaps := map[], 0;
    }

    // The outcome is Done exactly when every operation succeeded.
    twostate predicate Reported(o: Outcome)
      reads this
    {
      old(mishaps) <= mishaps && (o.Done? <==> mishaps == old(mishaps))
    }

    // Only an operation that did not succeed is a reason for an outcome other than Done.
    twostate predicate Excused(o: Outcome)
      reads this
    {
      old(mishaps) <= mishaps && (mishaps == old(mishaps) ==> o.Done?)
    }

    function At(id: string): Entries
      reads this
    {
      if id in dirs then dirs[id] else map[]
    }

    // Nothing but the directory of id differs from what it was.
    twostate predicate OnlyAt(id: string)
      reads this
    {
      forall j | j != id :: At(j) == old(At(j))
    }

    method Choose() returns (o: Outcome)
      modifies this`mishaps
      ensures Reported(o)
    {
      o := *;
      if !o.Done? {
        mishaps := mishaps + 1;
      }
    }

    method RemoveAll(id: string, name: string) returns (o: Outcome)
      modifies this
      ensures OnlyAt(id) && Reported(o)
      ensures o.Done? ==> At(id) == old(At(id)) - {name}
      ensures Shrunk(old(At(id)), At(id), name)
    {
      o := Choose();
      var e := At(id);
      if o.Done? {
        dirs := dirs[id := e - {name}];
      } else {
        ShrunkSelf(e, name);
        var left :| Shrunk(e, left, name);
        dirs := dirs[id := left];
      }
    }

    // Leaves anything at all under name.
    method Scramble(id: string, name: string)
      modifies this`dirs
      ensures OnlyAt(id)
      ensures SameExcept(old(At(id)), At(id), {name})
    {
      var e := At(id);
      assert SameExcept(e, e, {name});
      var left :| SameExcept(e, left, {name});
      dirs := dirs[id := left];
    }

    // Creates name and its blobs directory.
    method MakeBlobDir(id: string, name: string) returns (o: Outcome)
      requires name !in At(id)
      modifies this
      ensures OnlyAt(id) && Reported(o)
      ensures o.Done? ==> At(id) == old(At(id))[name := Dir(map["blobs" := Dir(map[])])]
      ensures SameExcept(old(At(id)), At(id), {name})
    {
      o := Choose();
      if o.Done? {
        dirs := dirs[id := At(id)[name := Dir(map["blobs" := Dir(map[])])]];
      } else {
        Scramble(id, name);
      }
    }

    method WriteBlob(id: string, name: string, hash: string, data: Bytes) returns (o: Outcome)
      requires name in At(id) && At(id)[name].Dir?
      requires "blobs" in At(id)[name].entries && At(id)[name].entries["blobs"].Dir?
      modifies this
      ensures OnlyAt(id) && Reported(o)
      ensures o.Done? ==>
        var d := old(At(id))[name].entries;
        At(id) == old(At(id))[name := Dir(d["blobs" := Dir(d["blobs"].entries[hash := File(data)])])]
      ensures SameExcept(old(At(id)), At(id), {name})
    {
      o := Choose();
      if o.Done? {
        var d := At(id)[name].entries;
        dirs := dirs[id := At(id)[name := Dir(d["blobs" := Dir(d["blobs"].entries[hash := File(data)])])]];
      } else {
        Scramble(id, name);
      }
    }

    method WriteIn(id: string, name: string, file: string, data: Bytes) returns (o: Outcome)
      requires name in At(id) && At(id)[name].Dir?
      modifies this
      ensures OnlyAt(id) && Reported(o)
      ensures o.Done? ==> At(id) == old(At(id))[name := Dir(old(At(id))[name].entries[file := File(data)])]
      ensures SameExcept(old(At(id)), At(id), {name})
    {
      o := Choose();
      if o.Done? {
        dirs := dirs[id := At(id)[name := Dir(At(id)[name].entries[file := File(data)])]];
      } else {
        Scramble(id, name);
      }
    }

    method WriteFile(id: string, name: string, data: Bytes) returns (o: Outcome)
      modifies this
      ensures OnlyAt(id) && Reported(o)
      ensures o.Done? ==> At(id) == old(At(id))[name := File(data)]
      ensures SameExcept(old(At(id)), At(id), {name})
    {
      o := Choose();
      if o.Done? {
        dirs := dirs[id := At(id)[name := File(data)]];
      } else {
        Scramble(id, name);
      }
    }

    // A crash may come before or after the rename, never in the middle of it.
    method Rename(id: string, from: string, to: string) returns (o: Outcome)
      requires from in At(id)
      modifies this
      ensures OnlyAt(id) && Reported(o)
      ensures o.Done? ==> Renamed(old(At(id)), At(id), from, to)
      ensures o.Failed? ==> At(id) == old(At(id))
      ensures o.Crashed? ==> At(id) == old(At(id)) || Renamed(old(At(id)), At(id), from, to)
    {
      o := Choose();
      var after: bool := *;
      if o.Done? || (o.Crashed? && after) {
        var e := At(id);
        dirs := dirs[id := (e - {from})[to := e[from]]];
      }
    }
  }
}
