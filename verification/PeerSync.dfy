/** Synchronisation between peers: the object listing, pulling what is missing, and why interleaved pulls
    between any number of nodes converge to the union. */
module PeerSync {
  import opened Prelude
  import opened MapSums

  type Name = (string, string)
  type Objects = map<Name, Bytes>

  const PULL_LIMIT: nat := 1000
  const INTERNAL_BUCKETS: set<string> := {"apikeys", "blobs", "dedup", "metadata"}

  predicate IsContent(n: Name) {
    n.0 !in INTERNAL_BUCKETS
  }

  function ContentNames(objects: Objects): set<Name> {
    set n | n in objects && IsContent(n)
  }

  // ---- Names as file paths ----

  /** `m` lies below `n`: stored as files, `n` would have to be a directory. */
  predicate Below(m: Name, n: Name) {
    m.0 == n.0 && n.1 + "/" <= m.1
  }

  /** A directory stands where the file of `n` belongs; a lookup takes it for the object. */
  predicate Occupied(objects: Objects, n: Name) {
    exists m | m in objects :: Below(m, n)
  }

  /** `n` cannot be stored: a directory stands in its place or a file in its way. */
  predicate Blocked(objects: Objects, n: Name) {
    exists m | m in objects :: Below(m, n) || Below(n, m)
  }

  /** No name lies below another; so it is in every file system. */
  ghost predicate Unnested(names: set<Name>) {
    forall m, n | m in names && n in names :: !Below(m, n)
  }

  lemma StoredUnnested(objects: Objects, n: Name, data: Bytes)
    requires Unnested(objects.Keys) && !Blocked(objects, n)
    ensures Unnested(objects[n := data].Keys)
  {
    assert !Below(n, n);
  }

  // ---- The server's listing ----

  /** One file as a directory walk reports it. The store fills in no hash, so every listed hash is empty. */
  datatype Entry = Entry(key: string, size: nat, modified: int)
  datatype Dir = Dir(bucket: string, walk: seq<Entry>)
  datatype Meta = Meta(bucket: string, key: string, hash: string, size: nat, modified: int)
  datatype ListRequest =
    ListRequest(bucket: string, prefix: string, excludeHashes: set<string>, since: int, limit: nat)
  datatype Listing = Listing(objects: seq<Meta>, hasMore: bool)

  function Listed(bucket: string, walk: seq<Entry>, req: ListRequest): seq<Meta> {
    if walk == [] then [] else
      var e := walk[|walk| - 1];
      Listed(bucket, walk[..|walk| - 1], req) +
      if !(req.prefix <= e.key) || "" in req.excludeHashes || (req.since > 0 && e.modified < req.since) then []
      else [Meta(bucket, e.key, "", e.size, e.modified)]
  }

  predicate Wanted(d: Dir, req: ListRequest) {
    if req.bucket != "" then d.bucket == req.bucket else d.bucket !in INTERNAL_BUCKETS
  }

  /** Everything that matches, bucket by bucket. */
  function AllListed(dirs: seq<Dir>, req: ListRequest): seq<Meta> {
    if dirs == [] then [] else
      var d := dirs[|dirs| - 1];
      AllListed(dirs[..|dirs| - 1], req) + if Wanted(d, req) then Listed(d.bucket, d.walk, req) else []
  }

  /** Everything there is, bucket by bucket. */
  function MetasOf(bucket: string, walk: seq<Entry>): seq<Meta> {
    seq(|walk|, i requires 0 <= i < |walk| => Meta(bucket, walk[i].key, "", walk[i].size, walk[i].modified))
  }

  function AllMetas(dirs: seq<Dir>): seq<Meta> {
    if dirs == [] then [] else
      var d := dirs[|dirs| - 1];
      AllMetas(dirs[..|dirs| - 1]) + MetasOf(d.bucket, d.walk)
  }

  lemma {:induction false} ListedMeaning(bucket: string, walk: seq<Entry>, req: ListRequest, wanted: Meta -> bool)
    requires forall m: Meta | m.bucket == bucket ::
               wanted(m) <==>
                 req.prefix <= m.key && "" !in req.excludeHashes && (req.since <= 0 || req.since <= m.modified)
    ensures Listed(bucket, walk, req) == Filter(MetasOf(bucket, walk), wanted)
  {
    if walk != [] {
      var init, e := walk[..|walk| - 1], walk[|walk| - 1];
      ListedMeaning(bucket, init, req, wanted);
      assert MetasOf(bucket, walk) == MetasOf(bucket, init) + [Meta(bucket, e.key, "", e.size, e.modified)];
      FilterSnoc(MetasOf(bucket, init), Meta(bucket, e.key, "", e.size, e.modified), wanted);
    }
  }

  lemma {:induction false} NoneWanted(bucket: string, walk: seq<Entry>, wanted: Meta -> bool)
    requires forall m: Meta | m.bucket == bucket :: !wanted(m)
    ensures Filter(MetasOf(bucket, walk), wanted) == []
  {
    if walk != [] {
      var init, e := walk[..|walk| - 1], walk[|walk| - 1];
      NoneWanted(bucket, init, wanted);
      assert MetasOf(bucket, walk) == MetasOf(bucket, init) + [Meta(bucket, e.key, "", e.size, e.modified)];
      FilterSnoc(MetasOf(bucket, init), Meta(bucket, e.key, "", e.size, e.modified), wanted);
    }
  }

  lemma {:induction false} ListingMeans(dirs: seq<Dir>, req: ListRequest, wanted: Meta -> bool)
    requires forall m: Meta :: wanted(m) <==>
               && (if req.bucket != "" then m.bucket == req.bucket
                   else m.bucket !in {"apikeys", "blobs", "dedup", "metadata"})
               && req.prefix <= m.key && "" !in req.excludeHashes
               && (req.since <= 0 || req.since <= m.modified)
    ensures AllListed(dirs, req) == Filter(AllMetas(dirs), wanted)
  {
    if dirs != [] {
      var init, d := dirs[..|dirs| - 1], dirs[|dirs| - 1];
      ListingMeans(init, req, wanted);
      FilterAppend(AllMetas(init), MetasOf(d.bucket, d.walk), wanted);
      if Wanted(d, req) {
        ListedMeaning(d.bucket, d.walk, req, wanted);
      } else {
        NoneWanted(d.bucket, d.walk, wanted);
      }
    }
  }

  /** What a request asks for: the objects of the named bucket, or of all content buckets, with the prefix, that were
      modified at or after the time if one is given; and nothing if empty hashes are excluded. */
  lemma ListingMeaning(dirs: seq<Dir>, req: ListRequest)
    ensures AllListed(dirs, req) == Filter(AllMetas(dirs), (m: Meta) =>
              && (if req.bucket != "" then m.bucket == req.bucket
                  else m.bucket !in {"apikeys", "blobs", "dedup", "metadata"})
              && req.prefix <= m.key && "" !in req.excludeHashes
              && (req.since <= 0 || req.since <= m.modified))
  {
    ListingMeans(dirs, req, (m: Meta) =>
      && (if req.bucket != "" then m.bucket == req.bucket else m.bucket !in {"apikeys", "blobs", "dedup", "metadata"})
      && req.prefix <= m.key && "" !in req.excludeHashes
      && (req.since <= 0 || req.since <= m.modified));
  }

  lemma {:induction false} ListedGrows(bucket: string, walk: seq<Entry>, req: ListRequest, i: nat)
    requires i <= |walk|
    ensures Listed(bucket, walk[..i], req) <= Listed(bucket, walk, req)
  {
    if i < |walk| {
      ListedGrows(bucket, walk[..|walk| - 1], req, i);
      assert walk[..|walk| - 1][..i] == walk[..i];
    } else {
      assert walk[..i] == walk;
    }
  }

  lemma {:induction false} AllListedGrows(dirs: seq<Dir>, req: ListRequest, i: nat)
    requires i <= |dirs|
    ensures AllListed(dirs[..i], req) <= AllListed(dirs, req)
  {
    if i < |dirs| {
      AllListedGrows(dirs[..|dirs| - 1], req, i);
      assert dirs[..|dirs| - 1][..i] == dirs[..i];
    } else {
      assert dirs[..i] == dirs;
    }
  }

  /** The inner loop: one bucket's files, until the limit is reached. */
  method ListDir(before: seq<Meta>, d: Dir, req: ListRequest) returns (all: seq<Meta>, full: bool)
    requires req.limit > 0 ==> |before| < req.limit
    ensures all <= before + Listed(d.bucket, d.walk, req)
    ensures full ==> req.limit > 0 && |all| == req.limit
    ensures !full ==> all == before + Listed(d.bucket, d.walk, req) && (req.limit > 0 ==> |all| < req.limit)
  {
    all, full := before, false;
    for k := 0 to |d.walk|
      invariant all == before + Listed(d.bucket, d.walk[..k], req)
      invariant req.limit > 0 ==> |all| < req.limit
    {
      var e := d.walk[k];
      assert d.walk[..k + 1][..k] == d.walk[..k];
      ListedGrows(d.bucket, d.walk, req, k + 1);
      if !(req.prefix <= e.key) {
        continue;
      }
      if "" in req.excludeHashes || (req.since > 0 && e.modified < req.since) {
        continue;
      }
      all := all + [Meta(d.bucket, e.key, "", e.size, e.modified)];
      if req.limit > 0 && |all| >= req.limit {
        return all, true;
      }
    }
    assert d.walk[..|d.walk|] == d.walk;
  }

  lemma AllListedStep(dirs: seq<Dir>, req: ListRequest, i: nat)
    requires i < |dirs|
    ensures AllListed(dirs[..i + 1], req) ==
            AllListed(dirs[..i], req) + if Wanted(dirs[i], req) then Listed(dirs[i].bucket, dirs[i].walk, req) else []
  {
    assert dirs[..i + 1][..i] == dirs[..i];
  }

  /** The listing loops: the first `limit` matching objects, and `hasMore` as soon as the limit is reached, even if
      nothing more follows. */
  method ListObjects(dirs: seq<Dir>, req: ListRequest) returns (r: Listing)
    ensures var all := AllListed(dirs, req);
            if req.limit > 0 && |all| >= req.limit then r == Listing(all[..req.limit], true)
            else r == Listing(all, false)
    ensures var all := Filter(AllMetas(dirs), (m: Meta) =>
              && (if req.bucket != "" then m.bucket == req.bucket
                  else m.bucket !in {"apikeys", "blobs", "dedup", "metadata"})
              && req.prefix <= m.key && "" !in req.excludeHashes
              && (req.since <= 0 || req.since <= m.modified));
            if req.limit > 0 && |all| >= req.limit then r == Listing(all[..req.limit], true)
            else r == Listing(all, false)
  {
    ListingMeaning(dirs, req);
    assert AllListed(dirs[..0], req) == [];
    hide AllListed;
    var all: seq<Meta> := [];
    for i := 0 to |dirs|
      invariant all == AllListed(dirs[..i], req)
      invariant req.limit > 0 ==> |all| < req.limit
    {
      AllListedStep(dirs, req, i);
      AllListedGrows(dirs, req, i + 1);
      if Wanted(dirs[i], req) {
        var full;
        all, full := ListDir(all, dirs[i], req);
        if full {
          return Listing(all, true);
        }
      }
    }
    assert dirs[..|dirs|] == dirs;
    return Listing(all, false);
  }

  // ---- One pull, undisturbed ----

  function NamesOf(metas: seq<Meta>): seq<Name> {
    seq(|metas|, i requires 0 <= i < |metas| => (metas[i].bucket, metas[i].key))
  }

  /** A pull adds the listed content objects that are missing and can be stored, and leaves everything else alone. */
  ghost function Pulled(mine: Objects, theirs: Objects, listed: seq<Name>): Objects {
    map n | n in mine.Keys + (set n | n in listed && IsContent(n) && n in theirs && !Blocked(mine, n)) ::
      if n in mine then mine[n] else theirs[n]
  }

  /** What is pulled from a peer never stands in the way of what else comes from there. */
  lemma PulledBlocks(mine: Objects, theirs: Objects, listed: seq<Name>, n: Name)
    requires Unnested(theirs.Keys) && n in theirs
    ensures Blocked(Pulled(mine, theirs, listed), n) <==> Blocked(mine, n)
  {
    var now := Pulled(mine, theirs, listed);
    if Blocked(mine, n) {
      var m :| m in mine && (Below(m, n) || Below(n, m));
      assert m in now;
    }
    if Blocked(now, n) {
      var m :| m in now && (Below(m, n) || Below(n, m));
      assert m in mine;
    }
  }

  lemma PulledStep(mine: Objects, theirs: Objects, listed: seq<Name>, n: Name)
    requires Unnested(theirs.Keys)
    ensures var now := Pulled(mine, theirs, listed);
            Pulled(mine, theirs, listed + [n]) ==
            if IsContent(n) && n in theirs && n !in now && !Blocked(now, n) then now[n := theirs[n]] else now
  {
    assert forall m :: m in listed + [n] <==> m in listed || m == n;
    if n in theirs {
      PulledBlocks(mine, theirs, listed, n);
    }
    hide Blocked;
  }

  lemma PulledNothing(mine: Objects, theirs: Objects)
    ensures Pulled(mine, theirs, []) == mine && NamesOf([]) == []
  {
  }

  lemma PulledKeeps(mine: Objects, theirs: Objects, listed: seq<Name>)
    ensures forall n | n in mine :: n in Pulled(mine, theirs, listed) && Pulled(mine, theirs, listed)[n] == mine[n]
  {
  }

  lemma PulledMembers(mine: Objects, theirs: Objects, listed: seq<Name>)
    ensures forall n :: n in Pulled(mine, theirs, listed) <==>
              || n in mine
              || (n in listed && n.0 !in {"apikeys", "blobs", "dedup", "metadata"} && n in theirs && !Blocked(mine, n))
    ensures forall n | n in Pulled(mine, theirs, listed) && n !in mine :: Pulled(mine, theirs, listed)[n] == theirs[n]
  {
    hide Blocked;
  }

  lemma NamesOfStep(metas: seq<Meta>, i: nat)
    requires i < |metas|
    ensures NamesOf(metas[..i + 1]) == NamesOf(metas[..i]) + [(metas[i].bucket, metas[i].key)]
  {
  }

  ghost function Lengths(objects: Objects): map<Name, int> {
    map n | n in objects :: |objects[n]|
  }

  ghost function TotalLength(objects: Objects): int {
    Sum(Lengths(objects))
  }

  lemma OneMoreLength(objects: Objects, n: Name, data: Bytes)
    requires n !in objects
    ensures TotalLength(objects[n := data]) == TotalLength(objects) + |data|
  {
    assert Lengths(objects)[n := |data|] == Lengths(objects[n := data]);
    assert n !in Lengths(objects);
    hide Lengths;
    SumPut(Lengths(objects), n, |data|);
  }

  lemma OneMoreObject(objects: Objects, n: Name, data: Bytes)
    requires n !in objects
    ensures |objects[n := data]| == |objects| + 1
    ensures TotalLength(objects[n := data]) == TotalLength(objects) + |data|
  {
    hide TotalLength;
    OneMoreLength(objects, n, data);
    assert objects[n := data].Keys == objects.Keys + {n};
    assert |objects.Keys| == |objects| && |objects[n := data].Keys| == |objects[n := data]|;
  }

  /** Listed sizes are the lengths of the peer's objects. */
  ghost predicate Honest(listed: seq<Meta>, theirs: Objects) {
    forall i | 0 <= i < |listed| && (listed[i].bucket, listed[i].key) in theirs ::
      listed[i].size == |theirs[(listed[i].bucket, listed[i].key)]|
  }

  lemma HonestSize(listed: seq<Meta>, theirs: Objects, i: nat)
    requires Honest(listed, theirs) && i < |listed| && (listed[i].bucket, listed[i].key) in theirs
    ensures listed[i].size == |theirs[(listed[i].bucket, listed[i].key)]|
  {
  }

  /** What a listing with a limit lets the puller see. */
  function Truncated<T>(names: seq<T>, limit: nat): seq<T> {
    if |names| <= limit then names else names[..limit]
  }

  function WalkNames(bucket: string, walk: seq<Entry>): seq<Name> {
    if walk == [] then [] else WalkNames(bucket, walk[..|walk| - 1]) + [(bucket, walk[|walk| - 1].key)]
  }

  /** The names of all files, bucket by bucket in the order of the walk. */
  function AllNames(dirs: seq<Dir>): seq<Name> {
    if dirs == [] then [] else
      var d := dirs[|dirs| - 1];
      AllNames(dirs[..|dirs| - 1]) + WalkNames(d.bucket, d.walk)
  }

  /** The directories hold the objects, each file once. */
  ghost predicate Describes(dirs: seq<Dir>, objects: Objects) {
    && (forall n :: n in AllNames(dirs) <==> n in objects)
    && forall i, j | 0 <= i < j < |AllNames(dirs)| :: AllNames(dirs)[i] != AllNames(dirs)[j]
  }

  class Node {
    var objects: Objects
    var objectsSynced: nat
    var bytesSynced: int

    /** The objects are files. */
    ghost predicate Valid()
      reads this
    {
      Unnested(objects.Keys)
    }

    constructor (objects: Objects)
      requires Unnested(objects.Keys)
      ensures Valid() && this.objects == objects && objectsSynced == 0 && bytesSynced == 0
    {
      this.objects, objectsSynced, bytesSynced := objects, 0, 0;
    }

    /** downloadObject: fails when the peer no longer has the object, when it cannot be stored, or for a reason of its
        own. */
    method DownloadObject(peer: Node, n: Name, failing: set<Name>) returns (ok: bool)
      requires peer != this && Valid()
      modifies this`objects
      ensures Valid()
      ensures ok <==> n in peer.objects - failing && !Blocked(old(objects), n)
      ensures objects == if ok then old(objects)[n := peer.objects[n]] else old(objects)
    {
      if n !in peer.objects || n in failing {
        return false;
      }
      if Blocked(objects, n) {
        return false;
      }
      StoredUnnested(objects, n, peer.objects[n]);
      objects := objects[n := peer.objects[n]];
      return true;
    }

    /** The loop body of pullFromPeer: one listed object. */
    method PullListed(peer: Node, meta: Meta, failing: set<Name>)
      requires peer != this && Valid()
      modifies this
      ensures Valid()
      ensures var n := (meta.bucket, meta.key);
              if IsContent(n) && n !in old(objects) && n in peer.objects - failing && !Blocked(old(objects), n)
              then objects == old(objects)[n := peer.objects[n]] && objectsSynced == old(objectsSynced) + 1 &&
                   bytesSynced == old(bytesSynced) + meta.size
              else objects == old(objects) && objectsSynced == old(objectsSynced) && bytesSynced == old(bytesSynced)
    {
      if meta.bucket in INTERNAL_BUCKETS {
        return;
      }
      if (meta.bucket, meta.key) in objects || Occupied(objects, (meta.bucket, meta.key)) {
        return;
      }
      var ok := DownloadObject(peer, (meta.bucket, meta.key), failing);
      if !ok {
        return;
      }
      objectsSynced := objectsSynced + 1;
      bytesSynced := bytesSynced + meta.size;
    }

    /** pullFromPeer against a peer that meanwhile stays as it is: its answer to the listing is `listed`, and the
        downloads of `failing` fail. */
    method PullFrom(peer: Node, listed: seq<Meta>, failing: set<Name>)
      requires peer != this && Valid() && peer.Valid()
      modifies this
      ensures Valid()
      ensures objects == Pulled(old(objects), peer.objects - failing, NamesOf(listed))
      ensures forall n :: n in objects <==>
                || n in old(objects)
                || (n in NamesOf(listed) && n.0 !in {"apikeys", "blobs", "dedup", "metadata"} &&
                    n in peer.objects && n !in failing && !Blocked(old(objects), n))
      ensures forall n | n in objects && n !in old(objects) :: objects[n] == peer.objects[n]
      ensures forall n | n in old(objects) :: n in objects && objects[n] == old(objects)[n]
      ensures objectsSynced - old(objectsSynced) == |objects| - |old(objects)|
      ensures Honest(listed, peer.objects) ==>
                bytesSynced - old(bytesSynced) == TotalLength(objects) - TotalLength(old(objects))
    {
      ghost var mine, theirs, seen: seq<Name> := objects, peer.objects - failing, [];
      ghost var honest := Honest(listed, peer.objects);
      assert Unnested(theirs.Keys);
      hide Pulled, NamesOf, TotalLength, Honest, IsContent, Blocked, Unnested;
      PulledNothing(mine, theirs);
      for i := 0 to |listed|
        invariant Valid() && seen == NamesOf(listed[..i]) && peer.objects == old(peer.objects)
        invariant objects == Pulled(mine, theirs, seen)
        invariant objectsSynced - old(objectsSynced) == |objects| - |mine|
        invariant honest ==> bytesSynced - old(bytesSynced) == TotalLength(objects) - TotalLength(mine)
      {
        ghost var n := (listed[i].bucket, listed[i].key);
        NamesOfStep(listed, i);
        PulledStep(mine, theirs, seen, n);
        seen := seen + [n];
        if n in theirs && n !in objects {
          OneMoreObject(objects, n, theirs[n]);
          if honest {
            HonestSize(listed, peer.objects, i);
          }
        }
        PullListed(peer, listed[i], failing);
      }
      assert listed[..|listed|] == listed;
      PulledKeeps(mine, theirs, seen);
      PulledMembers(mine, theirs, seen);
    }

    /** pullFromPeer with its request: `dirs` is what the peer's walk reports. */
    method PullFromPeer(peer: Node, dirs: seq<Dir>, lastSync: int, failing: set<Name>)
      requires peer != this && Valid() && peer.Valid() && Describes(dirs, peer.objects)
      modifies this
      ensures Valid()
      ensures var recent := Filter(AllMetas(dirs), (m: Meta) =>
                m.bucket !in {"apikeys", "blobs", "dedup", "metadata"} && (lastSync <= 0 || lastSync <= m.modified));
              objects == Pulled(old(objects), peer.objects - failing, NamesOf(Truncated(recent, 1000)))
    {
      ghost var wanted := (m: Meta) =>
        m.bucket !in {"apikeys", "blobs", "dedup", "metadata"} && (lastSync <= 0 || lastSync <= m.modified);
      ListingMeans(dirs, ListRequest("", "", {}, lastSync, 1000), wanted);
      var answer := ListObjects(dirs, ListRequest("", "", {}, lastSync, 1000));
      assert answer.objects == Truncated(Filter(AllMetas(dirs), wanted), 1000);
      hide Pulled, NamesOf, Filter;
      PullFrom(peer, answer.objects, failing);
    }
  }

  /** `names` lists exactly the content objects, each once. */
  ghost predicate Enumerates(names: seq<Name>, objects: Objects) {
    && (forall n :: n in names <==> n in ContentNames(objects))
    && forall i, j | 0 <= i < j < |names| :: names[i] != names[j]
  }

  lemma {:induction false} WalkNamesBucket(bucket: string, walk: seq<Entry>)
    ensures forall n | n in WalkNames(bucket, walk) :: n.0 == bucket
  {
    if walk != [] {
      WalkNamesBucket(bucket, walk[..|walk| - 1]);
    }
  }

  function ContentOnly(names: seq<Name>): seq<Name> {
    if names == [] then [] else
      var n := names[|names| - 1];
      ContentOnly(names[..|names| - 1]) + if IsContent(n) then [n] else []
  }

  lemma {:induction false} ContentOnlyMembers(names: seq<Name>)
    ensures forall n :: n in ContentOnly(names) <==> n in names && IsContent(n)
  {
    if names != [] {
      ContentOnlyMembers(names[..|names| - 1]);
      assert names == names[..|names| - 1] + [names[|names| - 1]];
    }
  }

  lemma {:induction false} ContentOnlyDistinct(names: seq<Name>)
    requires forall i, j | 0 <= i < j < |names| :: names[i] != names[j]
    ensures forall i, j | 0 <= i < j < |ContentOnly(names)| :: ContentOnly(names)[i] != ContentOnly(names)[j]
  {
    if names != [] {
      var k := |names| - 1;
      ContentOnlyDistinct(names[..k]);
      ContentOnlyMembers(names[..k]);
      var kept := ContentOnly(names[..k]);
      forall i | 0 <= i < |kept|
        ensures kept[i] != names[k]
      {
        assert kept[i] in names[..k];
      }
    }
  }

  lemma {:induction false} ContentOnlyUniform(names: seq<Name>, more: seq<Name>, keep: bool)
    requires forall n | n in more :: IsContent(n) == keep
    ensures ContentOnly(names + more) == ContentOnly(names) + if keep then more else []
  {
    if more == [] {
      assert names + more == names;
    } else {
      var k := |more| - 1;
      ContentOnlyUniform(names, more[..k], keep);
      assert (names + more)[..|names| + k] == names + more[..k];
      assert more == more[..k] + [more[k]];
      assert more[k] in more;
    }
  }

  lemma {:induction false} ListedAll(bucket: string, walk: seq<Entry>, req: ListRequest)
    requires req.prefix == "" && "" !in req.excludeHashes && req.since <= 0
    ensures NamesOf(Listed(bucket, walk, req)) == WalkNames(bucket, walk)
  {
    if walk != [] {
      ListedAll(bucket, walk[..|walk| - 1], req);
    }
  }

  lemma {:induction false} AllListedNames(dirs: seq<Dir>, req: ListRequest)
    requires req.bucket == "" == req.prefix && "" !in req.excludeHashes && req.since <= 0
    ensures NamesOf(AllListed(dirs, req)) == ContentOnly(AllNames(dirs))
  {
    if dirs != [] {
      var init, d := dirs[..|dirs| - 1], dirs[|dirs| - 1];
      AllListedNames(init, req);
      ListedAll(d.bucket, d.walk, req);
      WalkNamesBucket(d.bucket, d.walk);
      ContentOnlyUniform(AllNames(init), WalkNames(d.bucket, d.walk), Wanted(d, req));
      assert NamesOf(AllListed(init, req) + Listed(d.bucket, d.walk, req)) ==
             NamesOf(AllListed(init, req)) + NamesOf(Listed(d.bucket, d.walk, req));
    }
  }

  /** The answer to a first-contact pull request (all buckets, a time stamp before any file, limit 1000) is a
      listing of the content objects cut at the limit. */
  lemma FirstContactListing(dirs: seq<Dir>, objects: Objects, since: int)
    requires since <= 0
    requires forall n :: n in AllNames(dirs) <==> n in objects
    requires forall i, j | 0 <= i < j < |AllNames(dirs)| :: AllNames(dirs)[i] != AllNames(dirs)[j]
    ensures var names := NamesOf(AllListed(dirs, ListRequest("", "", {}, since, 1000)));
            Enumerates(names, objects)
  {
    AllListedNames(dirs, ListRequest("", "", {}, since, 1000));
    ContentOnlyMembers(AllNames(dirs));
    ContentOnlyDistinct(AllNames(dirs));
  }

  /** Which listed objects a pull brings: exactly those that were there already, or are among the first thousand names
      with nothing in their way; and it brings no others. */
  lemma PullArrives(mine: Objects, theirs: Objects, names: seq<Name>)
    requires forall n | n in names :: n in ContentNames(theirs)
    requires forall i, j | 0 <= i < j < |names| :: names[i] != names[j]
    ensures var after := Pulled(mine, theirs, Truncated(names, PULL_LIMIT));
            && (forall i | 0 <= i < |names| ::
                  names[i] in after <==> names[i] in mine || (i < 1000 && !Blocked(mine, names[i])))
            && (forall n | n in after && n !in mine :: n in names && after[n] == theirs[n])
            && (forall n | n in mine :: n in after && after[n] == mine[n])
  {
    hide Blocked;
    var seen := Truncated(names, PULL_LIMIT);
    forall i | 0 <= i < |names|
      ensures names[i] in seen <==> i < 1000
      ensures names[i] in ContentNames(theirs)
    {
      if i < 1000 {
        assert seen[i] == names[i];
      }
      assert names[i] in names;
    }
    assert forall n | n in seen :: n in names;
  }

  /** A first pull brings everything exactly when each object was there already, or is among the first thousand names
      and nothing stands in its way; so with at most a thousand content objects and no names in the way it does. */
  lemma PullCompleteIff(mine: Objects, theirs: Objects, names: seq<Name>)
    requires Enumerates(names, theirs)
    ensures var after := Pulled(mine, theirs, Truncated(names, PULL_LIMIT));
            && (ContentNames(theirs) <= after.Keys <==>
                  forall i | 0 <= i < |names| :: names[i] in mine || (i < 1000 && !Blocked(mine, names[i])))
            && (|names| <= 1000 && (forall n | n in names :: !Blocked(mine, n)) ==>
                  ContentNames(theirs) <= after.Keys)
            && (forall n | n in mine :: n in after && after[n] == mine[n])
  {
    PullArrives(mine, theirs, names);
    hide Blocked, Pulled;
    assert forall i | 0 <= i < |names| :: names[i] in names && names[i] in ContentNames(theirs);
  }

  lemma {:induction false} WalkMetaNames(bucket: string, walk: seq<Entry>)
    ensures NamesOf(MetasOf(bucket, walk)) == WalkNames(bucket, walk)
  {
    if walk != [] {
      WalkMetaNames(bucket, walk[..|walk| - 1]);
      assert MetasOf(bucket, walk) == MetasOf(bucket, walk[..|walk| - 1]) + [MetasOf(bucket, walk)[|walk| - 1]];
    }
  }

  lemma {:induction false} MetaNames(dirs: seq<Dir>)
    ensures NamesOf(AllMetas(dirs)) == AllNames(dirs)
  {
    if dirs != [] {
      var init, d := dirs[..|dirs| - 1], dirs[|dirs| - 1];
      MetaNames(init);
      WalkMetaNames(d.bucket, d.walk);
      assert NamesOf(AllMetas(init) + MetasOf(d.bucket, d.walk)) ==
             NamesOf(AllMetas(init)) + NamesOf(MetasOf(d.bucket, d.walk));
    }
  }

  lemma FilteredNames(dirs: seq<Dir>, objects: Objects, wanted: Meta -> bool)
    requires Describes(dirs, objects) && forall m: Meta | wanted(m) :: IsContent((m.bucket, m.key))
    ensures var names := NamesOf(Filter(AllMetas(dirs), wanted));
            && (forall n | n in names :: n in ContentNames(objects))
            && forall i, j | 0 <= i < j < |names| :: names[i] != names[j]
  {
    var all, kept := AllMetas(dirs), Filter(AllMetas(dirs), wanted);
    var at := FilterPositions(all, wanted);
    MetaNames(dirs);
    var names := NamesOf(kept);
    forall i | 0 <= i < |names|
      ensures names[i] == AllNames(dirs)[at[i]] && names[i] in ContentNames(objects)
    {
      assert kept[i] in kept;
      FilterMembers(all, wanted, kept[i]);
      assert names[i] == NamesOf(all)[at[i]];
    }
  }

  /** A later pull, with the time of the last one: of what the peer holds, it brings exactly the content modified at or
      after that time that was not there, is among the first thousand of these in the listing, and has nothing in its
      way. */
  lemma SincePullIff(dirs: seq<Dir>, mine: Objects, theirs: Objects, since: int)
    requires Describes(dirs, theirs)
    ensures var recent := Filter(AllMetas(dirs), (m: Meta) =>
              m.bucket !in {"apikeys", "blobs", "dedup", "metadata"} && (since <= 0 || since <= m.modified));
            var listed := NamesOf(AllListed(dirs, ListRequest("", "", {}, since, 1000)));
            var after := Pulled(mine, theirs, Truncated(listed, 1000));
            && (forall i | 0 <= i < |recent| ::
                  var n: Name := (recent[i].bucket, recent[i].key);
                  n in after <==> n in mine || (i < 1000 && !Blocked(mine, n)))
            && (forall n | n in after && n !in mine ::
                  exists m :: m in recent && n == (m.bucket, m.key) && after[n] == theirs[n])
  {
    var recent := (m: Meta) =>
      m.bucket !in {"apikeys", "blobs", "dedup", "metadata"} && (since <= 0 || since <= m.modified);
    ListingMeans(dirs, ListRequest("", "", {}, since, 1000), recent);
    FilteredNames(dirs, theirs, recent);
    var metas := Filter(AllMetas(dirs), recent);
    var names := NamesOf(metas);
    PullArrives(mine, theirs, names);
    var after := Pulled(mine, theirs, Truncated(names, 1000));
    hide Pulled, Blocked, Filter, AllListed, ContentNames;
    forall i | 0 <= i < |metas|
      ensures names[i] == (metas[i].bucket, metas[i].key)
    {
    }
    forall n | n in after && n !in mine
      ensures exists m :: m in metas && n == (m.bucket, m.key)
    {
      var i :| 0 <= i < |names| && names[i] == n;
      assert metas[i] in metas;
    }
  }

  // ---- Interleaved pulls between many nodes ----

  /** How far node `i` is with pulling from node `j`. Between any two steps every other pull may move on. */
  datatype Phase =
    | NotStarted
    | Todo(names: seq<Name>)
    | Missing(name: Name, names: seq<Name>)
    | Received(name: Name, data: Bytes, names: seq<Name>)
    | Finished

  type Pair = (nat, nat)

  datatype System = System(nodes: seq<Objects>, pulls: map<Pair, Phase>)

  /** Two different nodes. */
  ghost predicate IsPair(start: seq<Objects>, p: Pair) {
    p.0 < |start| && p.1 < |start| && p.0 != p.1
  }

  ghost predicate Initial(start: seq<Objects>, s: System) {
    && s.nodes == start && (forall i: nat | i < |start| :: Unnested(start[i].Keys))
    && (forall p :: p in s.pulls <==> IsPair(start, p))
    && forall p | p in s.pulls :: s.pulls[p] == NotStarted
  }

  /** What a walk over a node may report while other pulls store there: distinct content names, among them all the node
      had at the start, none that it does not hold by the end of the walk. */
  ghost predicate Glimpse(names: seq<Name>, before: Objects, now: Objects) {
    && (forall n | n in ContentNames(before) :: n in names)
    && (forall n | n in names :: n in ContentNames(now))
    && forall i, j | 0 <= i < j < |names| :: names[i] != names[j]
  }

  /** The peer's answer: the content names its walk meets, in some order, cut at the limit. */
  ghost predicate ListingStep(start: seq<Objects>, s: System, p: Pair, s': System) {
    && p in s.pulls && s.pulls[p].NotStarted? && p.1 < |s.nodes| == |start|
    && exists names :: Glimpse(names, start[p.1], s.nodes[p.1]) &&
                       s' == s.(pulls := s.pulls[p := Todo(Truncated(names, PULL_LIMIT))])
  }

  /** The next listed object is looked up locally and skipped or found missing; a directory in its place passes for
      it. */
  ghost predicate CheckStep(s: System, p: Pair, s': System) {
    && p in s.pulls && s.pulls[p].Todo? && s.pulls[p].names != [] && p.0 < |s.nodes|
    && var n, rest, mine := s.pulls[p].names[0], s.pulls[p].names[1..], s.nodes[p.0];
       var skip := !IsContent(n) || n in mine || Occupied(mine, n);
       s' == s.(pulls := s.pulls[p := if skip then Todo(rest) else Missing(n, rest)])
  }

  /** A missing object is fetched from the peer as it is now, or given up when the peer no longer has it. */
  ghost predicate FetchStep(s: System, p: Pair, s': System) {
    && p in s.pulls && s.pulls[p].Missing? && p.1 < |s.nodes|
    && var n, rest := s.pulls[p].name, s.pulls[p].names;
       s' == s.(pulls := s.pulls[p := if n in s.nodes[p.1] then Received(n, s.nodes[p.1][n], rest) else Todo(rest)])
  }

  ghost function Stored(objects: Objects, n: Name, data: Bytes): Objects {
    if Blocked(objects, n) then objects else objects[n := data]
  }

  /** A received object is stored, whatever has happened at that name since the check, unless it cannot be stored. */
  ghost predicate StoreStep(s: System, p: Pair, s': System) {
    && p in s.pulls && s.pulls[p].Received? && p.0 < |s.nodes|
    && s' == System(s.nodes[p.0 := Stored(s.nodes[p.0], s.pulls[p].name, s.pulls[p].data)],
                    s.pulls[p := Todo(s.pulls[p].names)])
  }

  ghost predicate FinishStep(s: System, p: Pair, s': System) {
    p in s.pulls && s.pulls[p] == Todo([]) && s' == s.(pulls := s.pulls[p := Finished])
  }

  ghost predicate OtherStep(s: System, p: Pair, s': System) {
    CheckStep(s, p, s') || FetchStep(s, p, s') || StoreStep(s, p, s') || FinishStep(s, p, s')
  }

  ghost predicate StepOf(start: seq<Objects>, s: System, p: Pair, s': System) {
    ListingStep(start, s, p, s') || OtherStep(s, p, s')
  }

  ghost predicate Step(start: seq<Objects>, s: System, s': System) {
    exists p :: StepOf(start, s, p, s')
  }

  ghost predicate IsRun(start: seq<Objects>, run: seq<System>) {
    && run != [] && Initial(start, run[0])
    && forall i | 0 <= i < |run| - 1 :: Step(start, run[i], run[i + 1])
  }

  ghost function Last(run: seq<System>): System
    requires run != []
  {
    run[|run| - 1]
  }

  ghost function Union(start: seq<Objects>): set<Name> {
    set i, n | 0 <= i < |start| && n in ContentNames(start[i]) :: n
  }

  ghost predicate Original(start: seq<Objects>, n: Name, data: Bytes) {
    exists i: nat :: i < |start| && n in start[i] && start[i][n] == data
  }

  /** A node still has all it had at the start, unchanged; what it gained is content and someone's original. */
  ghost predicate NodeOk(start: seq<Objects>, i: nat, now: Objects)
    requires i < |start|
  {
    && (forall n | n in start[i] :: n in now && now[n] == start[i][n])
    && forall n | n in now && n !in start[i] :: IsContent(n) && Original(start, n, now[n])
  }

  /** Of the names that no listing cuts off and nothing blocks, none that the peer had at the start is forgotten: it is
      there, being fetched, or still on the list. */
  ghost predicate Covered(start: seq<Objects>, sure: set<Name>, p: Pair, phase: Phase, now: Objects)
    requires p.0 < |start| && p.1 < |start|
  {
    match phase
    case NotStarted => true
    case Todo(names) => forall n | n in sure && n in ContentNames(start[p.1]) :: n in now || n in names
    case Missing(name, names) =>
      forall n | n in sure && n in ContentNames(start[p.1]) :: n in now || n == name || n in names
    case Received(name, data, names) =>
      forall n | n in sure && n in ContentNames(start[p.1]) :: n in now || n == name || n in names
    case Finished => forall n | n in sure && n in ContentNames(start[p.1]) :: n in now
  }

  /** Names on the way were all seen at the peer, which never loses any; what is being fetched is content that was not
      there at the start, and what was received is someone's original. */
  ghost predicate OnTheWay(start: seq<Objects>, p: Pair, phase: Phase, theirs: Objects)
    requires p.0 < |start|
  {
    match phase
    case Todo(names) => forall n | n in names :: n in theirs
    case Missing(name, names) =>
      IsContent(name) && name !in start[p.0] && name in theirs && forall n | n in names :: n in theirs
    case Received(name, data, names) =>
      IsContent(name) && name !in start[p.0] && Original(start, name, data) && forall n | n in names :: n in theirs
    case _ => true
  }

  ghost predicate Inv(start: seq<Objects>, sure: set<Name>, s: System) {
    && |s.nodes| == |start|
    && (forall i: nat | i < |start| :: NodeOk(start, i, s.nodes[i]) && Unnested(s.nodes[i].Keys))
    && (forall p :: p in s.pulls <==> IsPair(start, p))
    && (forall p | p in s.pulls ::
          Covered(start, sure, p, s.pulls[p], s.nodes[p.0]) && OnTheWay(start, p, s.pulls[p], s.nodes[p.1]))
    && (sure != {} ==> Unnested(Union(start)))
  }

  lemma {:induction false} DistinctAtMost<T>(names: seq<T>, s: set<T>)
    requires forall n | n in names :: n in s
    requires forall i, j | 0 <= i < j < |names| :: names[i] != names[j]
    ensures |names| <= |s|
    decreases |names|
  {
    if names != [] {
      var k := |names| - 1;
      assert names[k] in names;
      forall n | n in names[..k]
        ensures n in s - {names[k]}
      {
        assert n in names;
      }
      DistinctAtMost(names[..k], s - {names[k]});
    }
  }

  /** No node ever holds content from outside the union. */
  lemma WithinUnion(start: seq<Objects>, i: nat, now: Objects)
    requires i < |start| && NodeOk(start, i, now)
    ensures ContentNames(now) <= Union(start)
  {
    forall n | n in ContentNames(now)
      ensures n in Union(start)
    {
      if n in start[i] {
        assert n in ContentNames(start[i]);
      } else {
        var m: nat :| m < |start| && n in start[m] && start[m][n] == now[n];
        assert n in ContentNames(start[m]);
      }
    }
  }

  /** Where no names of the union lie below each other, nothing blocks any of them. */
  lemma NothingInTheWay(start: seq<Objects>, i: nat, now: Objects, n: Name)
    requires i < |start| && NodeOk(start, i, now) && Unnested(Union(start)) && n in Union(start)
    ensures !Blocked(now, n) && !Occupied(now, n)
  {
    WithinUnion(start, i, now);
    forall m | m in now && m.0 == n.0
      ensures !Below(m, n) && !Below(n, m)
    {
      assert IsContent(n);
      assert m in ContentNames(now);
    }
  }

  lemma InitialInv(start: seq<Objects>, sure: set<Name>, s: System)
    requires Initial(start, s) && (sure != {} ==> Unnested(Union(start)))
    ensures Inv(start, sure, s)
  {
  }

  /** Changing only the phase of one pull. */
  lemma PhaseInv(start: seq<Objects>, sure: set<Name>, s: System, p: Pair, phase: Phase)
    requires Inv(start, sure, s) && p in s.pulls
    requires Covered(start, sure, p, phase, s.nodes[p.0]) && OnTheWay(start, p, phase, s.nodes[p.1])
    ensures Inv(start, sure, s.(pulls := s.pulls[p := phase]))
  {
    hide NodeOk, Unnested, Union;
  }

  /** An answer that cuts off none of the sure names. */
  lemma ListedInv(start: seq<Objects>, sure: set<Name>, s: System, p: Pair, names: seq<Name>)
    requires Inv(start, sure, s) && p in s.pulls && Glimpse(names, start[p.1], s.nodes[p.1])
    requires forall n | n in sure && n in names :: n in Truncated(names, PULL_LIMIT)
    ensures Inv(start, sure, s.(pulls := s.pulls[p := Todo(Truncated(names, PULL_LIMIT))]))
  {
    forall n | n in Truncated(names, PULL_LIMIT)
      ensures n in s.nodes[p.1]
    {
      assert n in names;
    }
    PhaseInv(start, sure, s, p, Todo(Truncated(names, PULL_LIMIT)));
  }

  lemma CheckInv(start: seq<Objects>, sure: set<Name>, s: System, p: Pair, s': System)
    requires Inv(start, sure, s) && CheckStep(s, p, s')
    ensures Inv(start, sure, s')
  {
    var names, mine := s.pulls[p].names, s.nodes[p.0];
    var n, rest := names[0], names[1..];
    assert names == [n] + rest;
    assert NodeOk(start, p.0, mine);
    assert Covered(start, sure, p, s.pulls[p], mine) && OnTheWay(start, p, s.pulls[p], s.nodes[p.1]);
    assert forall m | m in names :: m == n || m in rest;
    if n in sure && n in ContentNames(start[p.1]) {
      assert n in Union(start);
      NothingInTheWay(start, p.0, mine, n);
    }
    hide Occupied, Union, Unnested;
    var skip := !IsContent(n) || n in mine || Occupied(mine, n);
    PhaseInv(start, sure, s, p, if skip then Todo(rest) else Missing(n, rest));
  }

  lemma FetchInv(start: seq<Objects>, sure: set<Name>, s: System, p: Pair, s': System)
    requires Inv(start, sure, s) && FetchStep(s, p, s')
    ensures Inv(start, sure, s')
  {
    var n, rest := s.pulls[p].name, s.pulls[p].names;
    assert Covered(start, sure, p, s.pulls[p], s.nodes[p.0]) && OnTheWay(start, p, s.pulls[p], s.nodes[p.1]);
    assert NodeOk(start, p.1, s.nodes[p.1]);
    if n in start[p.1] {
      assert start[p.1][n] == s.nodes[p.1][n];
    }
    assert Original(start, n, s.nodes[p.1][n]);
    PhaseInv(start, sure, s, p, Received(n, s.nodes[p.1][n], rest));
  }

  /** Coverage survives growing nodes; for the pull that stored, the stored name is now there. */
  lemma Grows(start: seq<Objects>, sure: set<Name>, q: Pair, phase: Phase, mine: Objects, mine': Objects,
              theirs: Objects, theirs': Objects, n: Name)
    requires q.0 < |start| && q.1 < |start|
    requires mine.Keys <= mine'.Keys && theirs.Keys <= theirs'.Keys
    requires (Covered(start, sure, q, phase, mine) && OnTheWay(start, q, phase, theirs)) ||
             ((n in sure && n in ContentNames(start[q.1]) ==> n in mine') &&
              phase.Todo? && (forall m | m in phase.names :: m in theirs) &&
              forall m | m in sure && m in ContentNames(start[q.1]) :: m in mine || m == n || m in phase.names)
    ensures Covered(start, sure, q, phase, mine') && OnTheWay(start, q, phase, theirs')
  {
    hide Original;
  }

  lemma StoreKeeps(start: seq<Objects>, sure: set<Name>, s: System, p: Pair, q: Pair)
    requires Inv(start, sure, s) && p in s.pulls && s.pulls[p].Received? && q in s.pulls
    ensures var nodes := s.nodes[p.0 := Stored(s.nodes[p.0], s.pulls[p].name, s.pulls[p].data)];
            var phase := if q == p then Todo(s.pulls[p].names) else s.pulls[q];
            Covered(start, sure, q, phase, nodes[q.0]) && OnTheWay(start, q, phase, nodes[q.1])
  {
    assert Covered(start, sure, q, s.pulls[q], s.nodes[q.0]) && OnTheWay(start, q, s.pulls[q], s.nodes[q.1]);
    var n := s.pulls[p].name;
    if n in sure && n in ContentNames(start[p.1]) {
      assert n in Union(start);
      NothingInTheWay(start, p.0, s.nodes[p.0], n);
    }
    hide NodeOk, Original, Unnested, Union, Blocked;
    var nodes := s.nodes[p.0 := Stored(s.nodes[p.0], n, s.pulls[p].data)];
    var phase := if q == p then Todo(s.pulls[p].names) else s.pulls[q];
    Grows(start, sure, q, phase, s.nodes[q.0], nodes[q.0], s.nodes[q.1], nodes[q.1], n);
  }

  lemma StoredOk(start: seq<Objects>, sure: set<Name>, s: System, p: Pair)
    requires Inv(start, sure, s) && p in s.pulls && s.pulls[p].Received?
    ensures var now := Stored(s.nodes[p.0], s.pulls[p].name, s.pulls[p].data);
            NodeOk(start, p.0, now) && Unnested(now.Keys)
  {
    hide Original, Covered, Union, Blocked, Unnested;
    assert OnTheWay(start, p, s.pulls[p], s.nodes[p.1]);
    assert NodeOk(start, p.0, s.nodes[p.0]) && Unnested(s.nodes[p.0].Keys);
    if !Blocked(s.nodes[p.0], s.pulls[p].name) {
      StoredUnnested(s.nodes[p.0], s.pulls[p].name, s.pulls[p].data);
    }
  }

  lemma StoreInv(start: seq<Objects>, sure: set<Name>, s: System, p: Pair, s': System)
    requires Inv(start, sure, s) && StoreStep(s, p, s')
    ensures Inv(start, sure, s')
  {
    hide NodeOk, Covered, OnTheWay, Unnested, Union, Stored;
    StoredOk(start, sure, s, p);
    forall q | q in s.pulls
      ensures Covered(start, sure, q, s'.pulls[q], s'.nodes[q.0]) && OnTheWay(start, q, s'.pulls[q], s'.nodes[q.1])
    {
      StoreKeeps(start, sure, s, p, q);
    }
  }

  lemma FinishInv(start: seq<Objects>, sure: set<Name>, s: System, p: Pair, s': System)
    requires Inv(start, sure, s) && FinishStep(s, p, s')
    ensures Inv(start, sure, s')
  {
    assert Covered(start, sure, p, s.pulls[p], s.nodes[p.0]);
    PhaseInv(start, sure, s, p, Finished);
  }

  lemma OtherInv(start: seq<Objects>, sure: set<Name>, s: System, p: Pair, s': System)
    requires Inv(start, sure, s) && OtherStep(s, p, s')
    ensures Inv(start, sure, s')
  {
    hide Inv, CheckStep, FetchStep, StoreStep, FinishStep;
    if CheckStep(s, p, s') {
      CheckInv(start, sure, s, p, s');
    } else if FetchStep(s, p, s') {
      FetchInv(start, sure, s, p, s');
    } else if StoreStep(s, p, s') {
      StoreInv(start, sure, s, p, s');
    } else {
      FinishInv(start, sure, s, p, s');
    }
  }

  /** All content together fits into one listing. */
  ghost predicate Small(start: seq<Objects>) {
    |Union(start)| <= PULL_LIMIT
  }

  /** Then, and with no names below each other, every name is sure to arrive. */
  ghost function SureNames(start: seq<Objects>): set<Name> {
    if Small(start) && Unnested(Union(start)) then Union(start) else {}
  }

  /** A small union is never cut. */
  lemma ListingUncut(start: seq<Objects>, i: nat, now: Objects, names: seq<Name>)
    requires i < |start| && NodeOk(start, i, now) && Small(start) && Glimpse(names, start[i], now)
    ensures Truncated(names, PULL_LIMIT) == names
  {
    WithinUnion(start, i, now);
    DistinctAtMost(names, Union(start));
  }

  lemma ListingInv(start: seq<Objects>, s: System, p: Pair, s': System)
    requires Inv(start, SureNames(start), s) && ListingStep(start, s, p, s')
    ensures Inv(start, SureNames(start), s')
  {
    var names :| Glimpse(names, start[p.1], s.nodes[p.1]) &&
                 s' == s.(pulls := s.pulls[p := Todo(Truncated(names, PULL_LIMIT))]);
    assert NodeOk(start, p.1, s.nodes[p.1]);
    if Small(start) {
      ListingUncut(start, p.1, s.nodes[p.1], names);
    }
    hide Inv, Glimpse, Union, Small, Unnested;
    ListedInv(start, SureNames(start), s, p, names);
  }

  lemma StepInv(start: seq<Objects>, s: System, s': System)
    requires Inv(start, SureNames(start), s) && Step(start, s, s')
    ensures Inv(start, SureNames(start), s')
  {
    hide Inv, SureNames, ListingStep, OtherStep;
    var p :| StepOf(start, s, p, s');
    if ListingStep(start, s, p, s') {
      ListingInv(start, s, p, s');
    } else {
      OtherInv(start, SureNames(start), s, p, s');
    }
  }

  lemma {:induction false} RunInv(start: seq<Objects>, run: seq<System>)
    requires IsRun(start, run)
    ensures Inv(start, SureNames(start), Last(run))
    decreases |run|
  {
    hide Inv, Step, Initial;
    if |run| == 1 {
      InitialInv(start, SureNames(start), run[0]);
    } else {
      RunInv(start, run[..|run| - 1]);
      StepInv(start, run[|run| - 2], run[|run| - 1]);
    }
  }

  /** Every pull has finished. */
  ghost predicate Done(s: System) {
    forall p | p in s.pulls :: s.pulls[p].Finished?
  }

  /** Once all pulls have finished, every sure name is everywhere. */
  lemma AllFinished(start: seq<Objects>, sure: set<Name>, s: System, i: nat, n: Name)
    requires Inv(start, sure, s) && i < |start| && Done(s) && n in sure && n in Union(start)
    ensures n in s.nodes[i]
  {
    assert NodeOk(start, i, s.nodes[i]);
    var j: nat :| j < |start| && n in ContentNames(start[j]);
    if j != i {
      assert IsPair(start, (i, j));
      assert Covered(start, sure, (i, j), s.pulls[(i, j)], s.nodes[i]);
    }
  }

  /** All nodes hold the union's names. */
  ghost predicate Converged(start: seq<Objects>, nodes: seq<Objects>) {
    |nodes| == |start| && forall i: nat | i < |start| :: ContentNames(nodes[i]) == Union(start)
  }

  /** In whatever interleaving of the single steps of all pulls, at every moment each node still holds unchanged all
      that it had at the start, internal buckets have not moved, and every gained object is some node's original.
      Once every ordered pair has finished one first-contact pull, the union is no larger than one listing, and none
      of its names lies below another, all nodes hold the same content names, the union. */
  lemma PullsConverge(start: seq<Objects>, run: seq<System>)
    requires IsRun(start, run)
    ensures var s := Last(run);
            && |s.nodes| == |start|
            && (forall i: nat | i < |start| :: NodeOk(start, i, s.nodes[i]) && Unnested(s.nodes[i].Keys))
            && (Done(s) && |Union(start)| <= 1000 && Unnested(Union(start)) ==> Converged(start, s.nodes))
  {
    var s := Last(run);
    RunInv(start, run);
    if Done(s) && Small(start) && Unnested(Union(start)) {
      hide IsRun, Last, Unnested;
      forall i: nat | i < |start|
        ensures ContentNames(s.nodes[i]) == Union(start)
      {
        assert NodeOk(start, i, s.nodes[i]);
        WithinUnion(start, i, s.nodes[i]);
        forall n | n in Union(start)
          ensures n in ContentNames(s.nodes[i])
        {
          AllFinished(start, SureNames(start), s, i, n);
          assert IsContent(n);
        }
      }
    }
  }

  ghost function ContentOf(objects: Objects): Objects {
    map n | n in objects && IsContent(n) :: objects[n]
  }

  /** No two nodes start with different bytes under one content name. */
  ghost predicate NoConflict(start: seq<Objects>) {
    forall i: nat, j: nat, n |
      i < |start| && j < |start| && n in ContentNames(start[i]) && n in ContentNames(start[j]) ::
      start[i][n] == start[j][n]
  }

  lemma ConflictRemains(start: seq<Objects>, nodes: seq<Objects>, i: nat, j: nat)
    requires i < |start| && j < |start| && |nodes| == |start|
    requires NodeOk(start, i, nodes[i]) && NodeOk(start, j, nodes[j]) && ContentOf(nodes[i]) == ContentOf(nodes[j])
    ensures forall n | n in ContentNames(start[i]) && n in ContentNames(start[j]) :: start[i][n] == start[j][n]
  {
    forall n | n in ContentNames(start[i]) && n in ContentNames(start[j])
      ensures start[i][n] == start[j][n]
    {
      assert ContentOf(nodes[i])[n] == start[i][n] && ContentOf(nodes[j])[n] == start[j][n];
    }
  }

  /** Without conflicts every value at a content name is the one original there is. */
  lemma ValueDetermined(start: seq<Objects>, i: nat, now: Objects, n: Name, m: nat)
    requires i < |start| && m < |start| && NodeOk(start, i, now) && NoConflict(start)
    requires n in now && IsContent(n) && n in start[m]
    ensures now[n] == start[m][n]
  {
    assert n in ContentNames(start[m]);
    if n in start[i] {
      assert n in ContentNames(start[i]);
    } else {
      var k: nat :| k < |start| && n in start[k] && start[k][n] == now[n];
      assert n in ContentNames(start[k]);
    }
  }

  ghost predicate SameContentEverywhere(nodes: seq<Objects>) {
    forall i, j | 0 <= i < |nodes| && 0 <= j < |nodes| :: ContentOf(nodes[i]) == ContentOf(nodes[j])
  }

  lemma SameContent(start: seq<Objects>, nodes: seq<Objects>, i: nat, j: nat)
    requires i < |start| && j < |start| && |nodes| == |start| && NoConflict(start)
    requires NodeOk(start, i, nodes[i]) && NodeOk(start, j, nodes[j])
    requires ContentNames(nodes[i]) == Union(start) == ContentNames(nodes[j])
    ensures ContentOf(nodes[i]) == ContentOf(nodes[j])
  {
    hide NodeOk, NoConflict;
    forall n | n in Union(start)
      ensures n in nodes[i] && n in nodes[j] && nodes[i][n] == nodes[j][n]
    {
      assert n in ContentNames(nodes[i]) && n in ContentNames(nodes[j]);
      var m: nat :| m < |start| && n in ContentNames(start[m]);
      ValueDetermined(start, i, nodes[i], n, m);
      ValueDetermined(start, j, nodes[j], n, m);
    }
    assert forall n :: n in ContentOf(nodes[i]) <==> n in ContentNames(nodes[i]);
    assert forall n :: n in ContentOf(nodes[j]) <==> n in ContentNames(nodes[j]);
  }

  /** Nodes with the same content hold no two names below each other. */
  lemma NestingRemains(start: seq<Objects>, nodes: seq<Objects>)
    requires |nodes| == |start| && SameContentEverywhere(nodes)
    requires forall i: nat | i < |start| :: NodeOk(start, i, nodes[i]) && Unnested(nodes[i].Keys)
    ensures Unnested(Union(start))
  {
    forall m, n | m in Union(start) && n in Union(start)
      ensures !Below(m, n)
    {
      var i: nat :| i < |start| && m in ContentNames(start[i]);
      var j: nat :| j < |start| && n in ContentNames(start[j]);
      assert NodeOk(start, i, nodes[i]) && NodeOk(start, j, nodes[j]);
      assert n in ContentOf(nodes[j]) && n in ContentOf(nodes[i]);
      assert m in nodes[i].Keys && n in nodes[i].Keys;
    }
  }

  /** The finished pulls leave all nodes with the same content, bytes included, exactly when no two nodes started with
      different bytes under one name and no name lies below another: a pull never repairs a conflict. */
  lemma PullsAgreeIff(start: seq<Objects>, run: seq<System>)
    requires IsRun(start, run) && |Union(start)| <= 1000 && Done(Last(run))
    ensures SameContentEverywhere(Last(run).nodes) <==> NoConflict(start) && Unnested(Union(start))
  {
    PullsConverge(start, run);
    var nodes := Last(run).nodes;
    hide IsRun, NodeOk, Unnested;
    if SameContentEverywhere(nodes) {
      NestingRemains(start, nodes);
      forall i: nat, j: nat | i < |start| && j < |start|
        ensures forall n | n in ContentNames(start[i]) && n in ContentNames(start[j]) :: start[i][n] == start[j][n]
      {
        ConflictRemains(start, nodes, i, j);
      }
    }
    if NoConflict(start) && Unnested(Union(start)) {
      forall i: nat, j: nat | i < |start| && j < |start|
        ensures ContentOf(nodes[i]) == ContentOf(nodes[j])
      {
        SameContent(start, nodes, i, j);
      }
    }
  }

  // ---- The pulls do finish ----

  ghost function Weight(phase: Phase): nat {
    match phase
    case NotStarted => 3 * PULL_LIMIT + 2
    case Todo(names) => 3 * |names| + 1
    case Missing(_, names) => 3 * |names| + 3
    case Received(_, _, names) => 3 * |names| + 2
    case Finished => 0
  }

  ghost function Weights(pulls: map<Pair, Phase>): map<Pair, int> {
    map p | p in pulls :: Weight(pulls[p])
  }

  /** Every step of every pull brings the whole system closer to the end. */
  lemma StepsDecrease(start: seq<Objects>, s: System, p: Pair, s': System)
    requires StepOf(start, s, p, s')
    ensures Sum(Weights(s'.pulls)) < Sum(Weights(s.pulls))
  {
    assert Weight(s'.pulls[p]) < Weight(s.pulls[p]);
    assert s'.pulls == s.pulls[p := s'.pulls[p]];
    assert Weights(s'.pulls) == Weights(s.pulls)[p := Weight(s'.pulls[p])];
    SumPut(Weights(s.pulls), p, Weight(s'.pulls[p]));
  }

  lemma {:induction false} EnumerationExists(names: set<Name>) returns (r: seq<Name>)
    ensures |r| == |names| && forall n :: n in r <==> n in names
    ensures forall i, j | 0 <= i < j < |r| :: r[i] != r[j]
    decreases |names|
  {
    if names == {} {
      r := [];
    } else {
      var n :| n in names;
      r := EnumerationExists(names - {n});
      r := r + [n];
    }
  }

  /** As long as some pull is not finished, it can take a step: nothing blocks. */
  lemma NothingBlocks(start: seq<Objects>, s: System, p: Pair)
    requires Inv(start, SureNames(start), s) && p in s.pulls && !s.pulls[p].Finished?
    ensures exists s' :: StepOf(start, s, p, s')
  {
    hide Covered, OnTheWay, SureNames, Unnested, Occupied, Blocked;
    match s.pulls[p]
    case NotStarted =>
      var names := EnumerationExists(ContentNames(s.nodes[p.1]));
      assert NodeOk(start, p.1, s.nodes[p.1]);
      assert Glimpse(names, start[p.1], s.nodes[p.1]);
      var s' := s.(pulls := s.pulls[p := Todo(Truncated(names, PULL_LIMIT))]);
      assert ListingStep(start, s, p, s');
      assert StepOf(start, s, p, s');
    case Todo(names) =>
      if names == [] {
        assert StepOf(start, s, p, s.(pulls := s.pulls[p := Finished]));
      } else {
        var n, rest := names[0], names[1..];
        var skip := !IsContent(n) || n in s.nodes[p.0] || Occupied(s.nodes[p.0], n);
        var phase := if skip then Todo(rest) else Missing(n, rest);
        assert StepOf(start, s, p, s.(pulls := s.pulls[p := phase]));
      }
    case Missing(n, rest) =>
      var phase := if n in s.nodes[p.1] then Received(n, s.nodes[p.1][n], rest) else Todo(rest);
      assert StepOf(start, s, p, s.(pulls := s.pulls[p := phase]));
    case Received(n, data, rest) =>
      assert StepOf(start, s, p, System(s.nodes[p.0 := Stored(s.nodes[p.0], n, data)], s.pulls[p := Todo(rest)]));
  }

  // ---- Pushing ----

  /** The names pushToPeer decides to send: all content not filtered out by the peer's hashes. */
  method ChoosePushes(mine: seq<Meta>, peers: seq<Meta>) returns (pushed: seq<Meta>)
    requires forall m | m in mine :: m.hash == ""
    requires forall m | m in peers :: m.hash == ""
    ensures pushed == if peers == [] then mine else []
  {
    var hashes: set<string> := {};
    for i := 0 to |peers|
      invariant hashes == if i == 0 then {} else {""}
    {
      hashes := hashes + {peers[i].hash};
    }
    pushed := [];
    for i := 0 to |mine|
      invariant pushed == if peers == [] then mine[..i] else []
    {
      if mine[i].hash in hashes {
        continue;
      }
      pushed := pushed + [mine[i]];
    }
  }

  // ---- Choosing peers ----

  datatype Peer = Peer(id: string, address: string, available: bool)

  function Addresses(peers: seq<Peer>): set<string> {
    set p | p in peers && p.available :: p.address
  }

  /** The first available peer of each address. */
  function FirstPerAddress(peers: seq<Peer>): seq<Peer> {
    if peers == [] then [] else
      var earlier, last := peers[..|peers| - 1], peers[|peers| - 1];
      if last.available && last.address !in Addresses(earlier) then FirstPerAddress(earlier) + [last]
      else FirstPerAddress(earlier)
  }

  /** The peer contacted at an address is the first available one with it. */
  lemma {:induction false} FirstIsContacted(peers: seq<Peer>, k: nat)
    requires k < |peers| && peers[k].available
    requires forall j | 0 <= j < k && peers[j].available :: peers[j].address != peers[k].address
    ensures peers[k] in FirstPerAddress(peers)
    decreases |peers|
  {
    var earlier := peers[..|peers| - 1];
    if k < |earlier| {
      FirstIsContacted(earlier, k);
    } else {
      assert peers[k].address !in Addresses(earlier);
    }
  }

  /** No address is contacted twice and none that is available is left out. */
  lemma {:induction false} OneConnectionPerAddress(peers: seq<Peer>)
    ensures var unique := FirstPerAddress(peers);
            && (forall p | p in unique :: p in peers && p.available)
            && (forall i, j | 0 <= i < j < |unique| :: unique[i].address != unique[j].address)
            && Addresses(unique) == Addresses(peers)
  {
    if peers != [] {
      var earlier, last := peers[..|peers| - 1], peers[|peers| - 1];
      assert peers == earlier + [last];
      OneConnectionPerAddress(earlier);
      var before, unique := FirstPerAddress(earlier), FirstPerAddress(peers);
      assert Addresses(peers) == Addresses(earlier) + if last.available then {last.address} else {};
      if unique != before {
        forall i | 0 <= i < |before|
          ensures before[i].address != last.address
        {
          assert before[i] in before && before[i].address in Addresses(before);
        }
        assert Addresses(unique) == Addresses(before) + {last.address};
      }
    }
  }

  lemma EmptyPeers()
    ensures FirstPerAddress([]) == [] && Addresses([]) == {}
  {
  }

  lemma AddPeer(earlier: seq<Peer>, last: Peer)
    ensures Addresses(earlier + [last]) == Addresses(earlier) + if last.available then {last.address} else {}
    ensures FirstPerAddress(earlier + [last]) ==
            if last.available && last.address !in Addresses(earlier)
            then FirstPerAddress(earlier) + [last] else FirstPerAddress(earlier)
  {
    assert (earlier + [last])[..|earlier|] == earlier;
  }

  method UniquePeers(peers: seq<Peer>) returns (unique: seq<Peer>)
    ensures unique == FirstPerAddress(peers)
  {
    hide FirstPerAddress, Addresses;
    var seen: set<string> := {};
    unique := [];
    assert peers[..0] == [];
    EmptyPeers();
    for k := 0 to |peers|
      invariant unique == FirstPerAddress(peers[..k])
      invariant seen == Addresses(peers[..k])
    {
      AddPeer(peers[..k], peers[k]);
      assert peers[..k + 1] == peers[..k] + [peers[k]];
      if peers[k].address in seen || !peers[k].available {
        continue;
      }
      seen := seen + {peers[k].address};
      unique := unique + [peers[k]];
    }
    assert peers[..|peers|] == peers;
  }
}
