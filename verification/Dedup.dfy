/** The content-addressed store: references, counted blob records and blob files, and why together they
    behave like one plain map from names to contents. */
module Dedup {
  import opened Prelude
  import opened MapSums
  import opened Text
  import opened FlatKeys

  type Hash = string
  type Digest = Bytes -> Hash

  datatype BlobInfo = BlobInfo(hash: Hash, size: nat, refCount: int, createdAt: int)
  datatype Reference = Reference(bucket: string, key: string, blobHash: Hash, createdAt: int)
  datatype Error = SourceNotFound | ObjectNotFound | BlobFileMissing | BlobRecordMissing

  /** Everything on disk: blob records, references by flat key, and blob files by hash. */
  datatype State = State(blobs: map<Hash, BlobInfo>, refs: map<string, Reference>, files: map<Hash, Bytes>)

  datatype Stats = Stats(totalBlobs: nat, totalReferences: nat, totalBytes: int, logicalBytes: int, bytesSaved: int)

  const EMPTY: State := State(map[], map[], map[])

  // ---- The operations as transactions on values ----

  /** decrementRefCount: fails without a record, removes record and file when the count runs out. */
  function Decrement(s: State, h: Hash): Result<State, Error> {
    if h !in s.blobs then Err(BlobRecordMissing)
    else
      var n := s.blobs[h].refCount - 1;
      if n <= 0 then Ok(s.(blobs := s.blobs - {h}, files := s.files - {h}))
      else Ok(s.(blobs := s.blobs[h := s.blobs[h].(refCount := n)]))
  }

  /** The record that storing under `ref` writes for its blob, before an overwrite is accounted for. */
  function NextInfo(s: State, ref: Reference, content: Bytes): BlobInfo {
    var h := ref.blobHash;
    if h in s.blobs then s.blobs[h].(refCount := s.blobs[h].refCount + 1)
    else BlobInfo(h, |content|, 1, ref.createdAt)
  }

  /** A new blob's file is in place before the transaction starts, and stays if that fails. */
  function WithFile(s: State, h: Hash, content: Bytes): State {
    if h in s.blobs then s else s.(files := s.files[h := content])
  }

  function StoreAt(s: State, name: string, ref: Reference, content: Bytes): Result<State, Error> {
    var h, info, written := ref.blobHash, NextInfo(s, ref, content), WithFile(s, ref.blobHash, content);
    if name in s.refs && s.refs[name].blobHash != h then
      match Decrement(written, s.refs[name].blobHash)
      case Err(e) => Err(e)
      case Ok(t) => Ok(t.(blobs := t.blobs[h := info], refs := t.refs[name := ref]))
    else
      var counted := if name in s.refs then info.(refCount := info.refCount - 1) else info;
      Ok(written.(blobs := written.blobs[h := counted], refs := written.refs[name := ref]))
  }

  function StoreTxn(digest: Digest, s: State, bucket: string, key: string, content: Bytes, now: int)
    : (State, Result<(Hash, nat), Error>)
  {
    var h := digest(content);
    match StoreAt(s, RefKey(bucket, key), Reference(bucket, key, h, now), content)
    case Err(e) => (WithFile(s, h, content), Err(e))
    case Ok(t) => (t, Ok((h, |content|)))
  }

  function DeleteTxn(s: State, bucket: string, key: string): (State, Result<(), Error>) {
    var name := RefKey(bucket, key);
    if name !in s.refs then (s, Ok(()))
    else
      match Decrement(s.(refs := s.refs - {name}), s.refs[name].blobHash)
      case Err(e) => (s, Err(e))
      case Ok(t) => (t, Ok(()))
  }

  function MoveTxn(s: State, srcBucket: string, srcKey: string, dstBucket: string, dstKey: string)
    : (State, Result<(), Error>)
  {
    var src, dst := RefKey(srcBucket, srcKey), RefKey(dstBucket, dstKey);
    if src !in s.refs then (s, Err(SourceNotFound))
    else
      var moved := Reference(dstBucket, dstKey, s.refs[src].blobHash, s.refs[src].createdAt);
      var released := if dst in s.refs then Decrement(s, s.refs[dst].blobHash) else Ok(s);
      match released
      case Err(e) => (s, Err(e))
      case Ok(t) => (t.(refs := t.refs[dst := moved] - {src}), Ok(()))
  }

  function Lookup(s: State, bucket: string, key: string): Result<(Bytes, Hash), Error> {
    var name := RefKey(bucket, key);
    if name !in s.refs then Err(ObjectNotFound)
    else
      var h := s.refs[name].blobHash;
      if h !in s.files then Err(BlobFileMissing) else Ok((s.files[h], h))
  }

  // ---- The invariant ----

  ghost function Owners(refs: map<string, Reference>): map<string, Hash> {
    map name | name in refs :: refs[name].blobHash
  }

  /** Blob records and files are exactly right for the references in `owner`: every count is the number of
      references, none is zero, and every file hashes to its name. */
  ghost predicate Balanced(digest: Digest, blobs: map<Hash, BlobInfo>, files: map<Hash, Bytes>,
                           owner: map<string, Hash>)
  {
    && (forall name | name in owner :: owner[name] in blobs)
    && blobs.Keys == files.Keys
    && forall h | h in blobs ::
         && blobs[h].hash == h == digest(files[h])
         && blobs[h].size == |files[h]|
         && blobs[h].refCount == |Fibre(owner, h)| >= 1
  }

  ghost predicate Consistent(digest: Digest, s: State) {
    && Balanced(digest, s.blobs, s.files, Owners(s.refs))
    && forall name | name in s.refs :: name == RefKey(s.refs[name].bucket, s.refs[name].key)
  }

  /** The plain map that the store stands for. */
  ghost function Contents(s: State): map<string, Bytes> {
    map name | name in s.refs && s.refs[name].blobHash in s.files :: s.files[s.refs[name].blobHash]
  }

  lemma FibreWitness(owner: map<string, Hash>, h: Hash)
    requires |Fibre(owner, h)| >= 1
    ensures h in owner.Values
  {
    var k :| k in Fibre(owner, h);
    assert owner[k] == h;
  }

  /** What a decrement of an existing record does. */
  lemma DecrementShape(s: State, h: Hash)
    requires h in s.blobs
    ensures Decrement(s, h).Ok?
    ensures var t := Decrement(s, h).value;
            && t.refs == s.refs
            && (forall g | g in t.files :: g in s.files && t.files[g] == s.files[g])
            && (forall g | g != h :: (g in t.blobs <==> g in s.blobs) && (g in t.files <==> g in s.files))
            && (forall g | g in t.blobs && g != h :: t.blobs[g] == s.blobs[g])
            && if s.blobs[h].refCount <= 1 then h !in t.blobs && h !in t.files
               else h in t.blobs && t.blobs[h] == s.blobs[h].(refCount := s.blobs[h].refCount - 1) &&
                    (h in t.files <==> h in s.files)
  {
  }

  /** Giving up one reference: the decrement succeeds, stays exact for the remaining references and
      touches no file that one of them needs. */
  lemma ReleaseBalanced(digest: Digest, s: State, owner: map<string, Hash>, k: string)
    requires Balanced(digest, s.blobs, s.files, owner) && k in owner
    ensures Decrement(s, owner[k]).Ok?
    ensures var t := Decrement(s, owner[k]).value;
            && Balanced(digest, t.blobs, t.files, owner - {k})
            && t.refs == s.refs
            && (forall h | h in t.files :: h in s.files && t.files[h] == s.files[h])
            && (forall h | h != owner[k] :: h in t.blobs <==> h in s.blobs)
            && (forall h | h in t.blobs && h != owner[k] :: t.blobs[h] == s.blobs[h])
  {
    DecrementShape(s, owner[k]);
    hide Decrement;
    var t := Decrement(s, owner[k]).value;
    var rest := owner - {k};
    forall h | h in s.blobs
      ensures |Fibre(rest, h)| == s.blobs[h].refCount - (if owner[k] == h then 1 else 0)
    {
      FibreRemove(owner, k, h);
    }
    forall n | n in rest
      ensures rest[n] in t.blobs
    {
      assert n in Fibre(rest, rest[n]);
    }
    hide Fibre;
    assert t.blobs.Keys == t.files.Keys;
  }

  /** Taking one more reference to `h`. */
  lemma AcquireBalanced(digest: Digest, blobs: map<Hash, BlobInfo>, files: map<Hash, Bytes>, owner: map<string, Hash>,
                        k: string, h: Hash, info: BlobInfo, content: Bytes)
    requires Balanced(digest, blobs, files, owner) && k !in owner
    requires h in blobs ==> info == blobs[h].(refCount := blobs[h].refCount + 1) && content == files[h]
    requires h !in blobs ==> info.hash == h == digest(content) && info.size == |content| && info.refCount == 1
    ensures Balanced(digest, blobs[h := info], files[h := content], owner[k := h])
  {
    var blobs', owner' := blobs[h := info], owner[k := h];
    forall g | g in blobs'
      ensures |Fibre(owner', g)| == blobs'[g].refCount
    {
      FibrePut(owner, k, h, g);
      if g !in blobs {
        if |Fibre(owner, g)| >= 1 {
          FibreWitness(owner, g);
          assert false;
        }
      }
    }
    assert owner'.Values <= owner.Values + {h};
  }

  // ---- Each operation keeps the invariant and acts on the plain map ----

  /** The blob side of storing: which file the name ends up with, and that no other file changes. */
  ghost predicate StoredSafely(digest: Digest, s: State, t: State, name: string, h: Hash, kept: Bytes) {
    && Balanced(digest, t.blobs, t.files, Owners(s.refs)[name := h])
    && h in t.files && t.files[h] == kept
    && forall g | g in t.files && g != h :: g in s.files && t.files[g] == s.files[g]
  }

  /** The file that `h` names after storing `content`: an existing one is never rewritten. */
  function KeptFile(s: State, h: Hash, content: Bytes): Bytes {
    if h in s.files then s.files[h] else content
  }

  lemma StoreFresh(digest: Digest, s: State, name: string, ref: Reference, content: Bytes)
    requires Balanced(digest, s.blobs, s.files, Owners(s.refs)) && name !in s.refs
    requires ref.blobHash == digest(content)
    ensures StoreAt(s, name, ref, content).Ok?
    ensures StoredSafely(digest, s, StoreAt(s, name, ref, content).value, name, ref.blobHash,
                         KeptFile(s, ref.blobHash, content))
  {
    var h, kept, info := ref.blobHash, KeptFile(s, ref.blobHash, content), NextInfo(s, ref, content);
    AcquireBalanced(digest, s.blobs, s.files, Owners(s.refs), name, h, info, kept);
    assert StoreAt(s, name, ref, content).value.files == s.files[h := kept];
  }

  lemma ReplacingState(s: State, name: string, ref: Reference, content: Bytes)
    requires s.blobs.Keys == s.files.Keys && name in s.refs && s.refs[name].blobHash in s.blobs
    requires s.refs[name].blobHash != ref.blobHash
    ensures var h, u := ref.blobHash, Decrement(s, s.refs[name].blobHash).value;
            StoreAt(s, name, ref, content) ==
            Ok(State(u.blobs[h := NextInfo(s, ref, content)], u.refs[name := ref],
                     u.files[h := KeptFile(s, h, content)]))
  {
    var h, u := ref.blobHash, Decrement(s, s.refs[name].blobHash).value;
    var t := StoreAt(s, name, ref, content).value;
    assert t.files == u.files[h := KeptFile(s, h, content)];
  }

  lemma ReplacedBalanced(digest: Digest, s: State, name: string, ref: Reference, content: Bytes)
    requires Balanced(digest, s.blobs, s.files, Owners(s.refs)) && name in s.refs
    requires s.refs[name].blobHash != ref.blobHash == digest(content)
    ensures var h, r := ref.blobHash, Decrement(s, s.refs[name].blobHash);
            && r.Ok?
            && Balanced(digest, r.value.blobs[h := NextInfo(s, ref, content)],
                        r.value.files[h := KeptFile(s, h, content)], Owners(s.refs)[name := h])
            && forall g | g in r.value.files && g != h :: g in s.files && r.value.files[g] == s.files[g]
  {
    var h, kept, info := ref.blobHash, KeptFile(s, ref.blobHash, content), NextInfo(s, ref, content);
    var owner := Owners(s.refs);
    assert s.blobs.Keys == s.files.Keys;
    hide Decrement, Fibre;
    ReleaseBalanced(digest, s, owner, name);
    var u := Decrement(s, owner[name]).value;
    assert u.blobs.Keys == u.files.Keys;
    hide Balanced;
    AcquireBalanced(digest, u.blobs, u.files, owner - {name}, name, h, info, kept);
    assert (owner - {name})[name := h] == owner[name := h];
  }

  lemma StoreReplacing(digest: Digest, s: State, name: string, ref: Reference, content: Bytes)
    requires Balanced(digest, s.blobs, s.files, Owners(s.refs)) && name in s.refs
    requires s.refs[name].blobHash != ref.blobHash == digest(content)
    ensures StoreAt(s, name, ref, content).Ok?
    ensures StoredSafely(digest, s, StoreAt(s, name, ref, content).value, name, ref.blobHash,
                         KeptFile(s, ref.blobHash, content))
  {
    assert s.blobs.Keys == s.files.Keys && Owners(s.refs)[name] in s.blobs;
    hide Decrement, StoreAt, NextInfo, KeptFile, Balanced;
    ReplacingState(s, name, ref, content);
    ReplacedBalanced(digest, s, name, ref, content);
  }

  lemma StoreSame(digest: Digest, s: State, name: string, ref: Reference, content: Bytes)
    requires Balanced(digest, s.blobs, s.files, Owners(s.refs)) && name in s.refs
    requires s.refs[name].blobHash == ref.blobHash == digest(content)
    ensures StoreAt(s, name, ref, content).Ok?
    ensures StoredSafely(digest, s, StoreAt(s, name, ref, content).value, name, ref.blobHash,
                         KeptFile(s, ref.blobHash, content))
  {
    var owner, h := Owners(s.refs), ref.blobHash;
    assert owner[name] in s.blobs;
    assert owner[name := h] == owner;
    var t := StoreAt(s, name, ref, content).value;
    assert t.blobs == s.blobs && t.files == s.files;
  }

  lemma StoreTxnSafe(digest: Digest, s: State, bucket: string, key: string, content: Bytes, now: int)
    requires Balanced(digest, s.blobs, s.files, Owners(s.refs))
    ensures var (t, r) := StoreTxn(digest, s, bucket, key, content, now);
            var h, name := digest(content), RefKey(bucket, key);
            && r == Ok((h, |content|))
            && t.refs == s.refs[name := Reference(bucket, key, h, now)]
            && StoredSafely(digest, s, t, name, h, KeptFile(s, h, content))
  {
    var h, name := digest(content), RefKey(bucket, key);
    var ref := Reference(bucket, key, h, now);
    hide Balanced, RefKey, StoredSafely;
    if name in s.refs && s.refs[name].blobHash == h {
      StoreSame(digest, s, name, ref, content);
    } else if name in s.refs {
      StoreReplacing(digest, s, name, ref, content);
    } else {
      StoreFresh(digest, s, name, ref, content);
    }
  }

  lemma StoredContents(digest: Digest, s: State, t: State, name: string, h: Hash, kept: Bytes)
    requires StoredSafely(digest, s, t, name, h, kept)
    requires h in s.files ==> s.files[h] == kept
    requires t.refs.Keys == s.refs.Keys + {name} && t.refs[name].blobHash == h
    requires forall n | n in s.refs && n != name :: t.refs[n] == s.refs[n]
    requires Contents(s).Keys == s.refs.Keys && Contents(t).Keys == t.refs.Keys
    ensures Contents(t) == Contents(s)[name := kept]
  {
    hide Balanced;
    forall n | n in Contents(t)
      ensures Contents(t)[n] == Contents(s)[name := kept][n]
    {
      if n != name {
        assert t.refs[n] == s.refs[n] && s.refs[n].blobHash in s.files;
      }
    }
  }

  lemma ContentsTotal(digest: Digest, s: State)
    requires Balanced(digest, s.blobs, s.files, Owners(s.refs))
    ensures Contents(s).Keys == s.refs.Keys
  {
    forall n | n in s.refs
      ensures s.refs[n].blobHash in s.files
    {
      assert Owners(s.refs)[n] in Owners(s.refs).Values;
    }
  }

  /** A stored blob keeps the creation time it has. */
  lemma StoredBlob(digest: Digest, s: State, bucket: string, key: string, content: Bytes, now: int)
    requires StoreTxn(digest, s, bucket, key, content, now).1.Ok?
    ensures var t, h := StoreTxn(digest, s, bucket, key, content, now).0, digest(content);
            && h in t.blobs
            && t.blobs[h].createdAt == (if h in s.blobs then s.blobs[h].createdAt else now)
  {
    hide RefKey;
  }

  /** Storing succeeds, keeps the invariant, names the new content and disturbs no other name. */
  lemma StoreCorrect(digest: Digest, s: State, bucket: string, key: string, content: Bytes, now: int)
    requires Consistent(digest, s)
    ensures var (t, r) := StoreTxn(digest, s, bucket, key, content, now);
            && r == Ok((digest(content), |content|))
            && Consistent(digest, t)
            && t.refs == s.refs[RefKey(bucket, key) := Reference(bucket, key, digest(content), now)]
            && digest(content) in t.blobs
            && t.blobs[digest(content)].createdAt ==
               (if digest(content) in s.blobs then s.blobs[digest(content)].createdAt else now)
            && Contents(t) == Contents(s)[RefKey(bucket, key) := KeptFile(s, digest(content), content)]
  {
    hide StoreTxn, RefKey, Balanced, Contents, Fibre;
    var h, name := digest(content), RefKey(bucket, key);
    StoreTxnSafe(digest, s, bucket, key, content, now);
    StoredBlob(digest, s, bucket, key, content, now);
    var t := StoreTxn(digest, s, bucket, key, content, now).0;
    assert Owners(t.refs) == Owners(s.refs)[name := h];
    ContentsTotal(digest, s);
    ContentsTotal(digest, t);
    StoredContents(digest, s, t, name, h, KeptFile(s, h, content));
  }

  /** Two states that agree on files and references agree on contents. */
  lemma RemovedContents(digest: Digest, s: State, t: State, name: string)
    requires Balanced(digest, s.blobs, s.files, Owners(s.refs)) && Balanced(digest, t.blobs, t.files, Owners(t.refs))
    requires t.refs == s.refs - {name}
    requires forall h | h in t.files :: h in s.files && t.files[h] == s.files[h]
    ensures Contents(t) == Contents(s) - {name}
  {
    ContentsTotal(digest, s);
    ContentsTotal(digest, t);
    hide Balanced;
    forall n | n in Contents(t)
      ensures n in Contents(s) && Contents(t)[n] == Contents(s)[n]
    {
    }
    assert Contents(t).Keys == (Contents(s) - {name}).Keys;
  }

  /** Deleting always succeeds, keeps the invariant and removes exactly the one name. */
  lemma DeleteCorrect(digest: Digest, s: State, bucket: string, key: string)
    requires Consistent(digest, s)
    ensures var (t, r) := DeleteTxn(s, bucket, key);
            && r == Ok(())
            && Consistent(digest, t)
            && t.refs == s.refs - {RefKey(bucket, key)}
            && Contents(t) == Contents(s) - {RefKey(bucket, key)}
  {
    hide Balanced, RefKey;
    var name := RefKey(bucket, key);
    var owner := Owners(s.refs);
    var t := DeleteTxn(s, bucket, key).0;
    if name in s.refs {
      ReleaseBalanced(digest, s, owner, name);
      var u := Decrement(s, owner[name]).value;
      assert t.blobs == u.blobs && t.files == u.files && t.refs == s.refs - {name};
      hide Decrement, DeleteTxn;
      assert Owners(t.refs) == owner - {name};
      RemovedContents(digest, s, t, name);
    } else {
      assert s.refs - {name} == s.refs && Contents(s) - {name} == Contents(s);
    }
  }

  /** Handing a reference over to a free name keeps every count. */
  lemma RenameBalanced(digest: Digest, blobs: map<Hash, BlobInfo>, files: map<Hash, Bytes>, owner: map<string, Hash>,
                       src: string, dst: string)
    requires Balanced(digest, blobs, files, owner) && src in owner && dst !in owner
    ensures Balanced(digest, blobs, files, owner[dst := owner[src]] - {src})
  {
    var mid := owner[dst := owner[src]];
    var owner' := mid - {src};
    forall h | h in blobs
      ensures |Fibre(owner', h)| == |Fibre(owner, h)|
    {
      FibrePut(owner, dst, owner[src], h);
      FibreRemove(mid, src, h);
    }
    assert owner'.Values <= owner.Values;
  }

  /** What a move does to the plain map: a rename with overwrite, except that moving a name onto itself
      loses the object. */
  function Moved<V>(m: map<string, V>, src: string, dst: string): map<string, V> {
    if src !in m then m
    else if src == dst then m - {src}
    else m[dst := m[src]] - {src}
  }

  /** The blob side of a move: the destination's old reference is released, the source's is handed over. */
  lemma MoveBalanced(digest: Digest, s: State, srcBucket: string, srcKey: string, dstBucket: string, dstKey: string)
    requires Balanced(digest, s.blobs, s.files, Owners(s.refs)) && RefKey(srcBucket, srcKey) in s.refs
    ensures var src, dst := RefKey(srcBucket, srcKey), RefKey(dstBucket, dstKey);
            var (t, r) := MoveTxn(s, srcBucket, srcKey, dstBucket, dstKey);
            && r == Ok(())
            && t.refs ==
               s.refs[dst := Reference(dstBucket, dstKey, s.refs[src].blobHash, s.refs[src].createdAt)] - {src}
            && Balanced(digest, t.blobs, t.files, Owners(t.refs))
            && forall h | h in t.files :: h in s.files && t.files[h] == s.files[h]
  {
    hide Balanced, RefKey;
    var src, dst := RefKey(srcBucket, srcKey), RefKey(dstBucket, dstKey);
    var owner := Owners(s.refs);
    var t := MoveTxn(s, srcBucket, srcKey, dstBucket, dstKey).0;
    var u, free := s, owner;
    if dst in s.refs {
      ReleaseBalanced(digest, s, owner, dst);
      u, free := Decrement(s, owner[dst]).value, owner - {dst};
    }
    assert t.files == u.files && t.blobs == u.blobs;
    hide Decrement, MoveTxn;
    if src == dst {
      assert Owners(t.refs) == free;
    } else {
      RenameBalanced(digest, u.blobs, u.files, free, src, dst);
      assert Owners(t.refs) == free[dst := free[src]] - {src};
    }
  }

  lemma MoveCorrect(digest: Digest, s: State, srcBucket: string, srcKey: string, dstBucket: string, dstKey: string)
    requires Consistent(digest, s)
    ensures var src, dst := RefKey(srcBucket, srcKey), RefKey(dstBucket, dstKey);
            var (t, r) := MoveTxn(s, srcBucket, srcKey, dstBucket, dstKey);
            && r == (if src in s.refs then Ok(()) else Err(SourceNotFound))
            && Consistent(digest, t)
            && Contents(t) == Moved(Contents(s), src, dst)
            && (src in s.refs && src != dst ==> dst in t.refs && t.refs[dst].createdAt == s.refs[src].createdAt)
  {
    hide Balanced, RefKey;
    var src, dst := RefKey(srcBucket, srcKey), RefKey(dstBucket, dstKey);
    var t := MoveTxn(s, srcBucket, srcKey, dstBucket, dstKey).0;
    ContentsTotal(digest, s);
    if src in s.refs {
      MoveBalanced(digest, s, srcBucket, srcKey, dstBucket, dstKey);
      hide MoveTxn;
      ContentsTotal(digest, t);
      forall n | n in Contents(t)
        ensures n in Moved(Contents(s), src, dst) && Contents(t)[n] == Moved(Contents(s), src, dst)[n]
      {
      }
      assert Contents(t).Keys == Moved(Contents(s), src, dst).Keys;
    }
  }

  /** Overwriting an equal reference by a move: the count is at least two beforehand, so the blob survives. */
  lemma SameHashMoveKeepsBlob(digest: Digest, s: State, srcBucket: string, srcKey: string, dstBucket: string,
                              dstKey: string)
    requires Consistent(digest, s)
    requires RefKey(srcBucket, srcKey) in s.refs && RefKey(dstBucket, dstKey) in s.refs
    requires RefKey(srcBucket, srcKey) != RefKey(dstBucket, dstKey)
    requires s.refs[RefKey(srcBucket, srcKey)].blobHash == s.refs[RefKey(dstBucket, dstKey)].blobHash
    ensures var h := s.refs[RefKey(srcBucket, srcKey)].blobHash;
            var t := MoveTxn(s, srcBucket, srcKey, dstBucket, dstKey).0;
            && h in s.blobs && s.blobs[h].refCount >= 2
            && h in t.blobs && t.blobs[h].refCount == s.blobs[h].refCount - 1
            && t.files == s.files
  {
    var src, dst := RefKey(srcBucket, srcKey), RefKey(dstBucket, dstKey);
    var owner, h := Owners(s.refs), s.refs[src].blobHash;
    assert owner[src] in owner.Values;
    FibreRemove(owner, src, h);
    assert dst in Fibre(owner - {src}, h);
  }

  // ---- Runs ----

  datatype Op =
    | Store(bucket: string, key: string, content: Bytes, now: int)
    | Delete(bucket: string, key: string)
    | Move(bucket: string, key: string, dstBucket: string, dstKey: string)

  function Apply(digest: Digest, s: State, op: Op): State {
    match op
    case Store(b, k, c, now) => StoreTxn(digest, s, b, k, c, now).0
    case Delete(b, k) => DeleteTxn(s, b, k).0
    case Move(b, k, db, dk) => MoveTxn(s, b, k, db, dk).0
  }

  function Run(digest: Digest, ops: seq<Op>): State {
    if ops == [] then EMPTY else Apply(digest, Run(digest, ops[..|ops| - 1]), ops[|ops| - 1])
  }

  /** The same operations on a plain map. */
  function ApplyPlain(m: map<string, Bytes>, op: Op): map<string, Bytes> {
    match op
    case Store(b, k, c, _) => m[RefKey(b, k) := c]
    case Delete(b, k) => m - {RefKey(b, k)}
    case Move(b, k, db, dk) => Moved(m, RefKey(b, k), RefKey(db, dk))
  }

  function RunPlain(ops: seq<Op>): map<string, Bytes> {
    if ops == [] then map[] else ApplyPlain(RunPlain(ops[..|ops| - 1]), ops[|ops| - 1])
  }

  /** No sequence of operations whatsoever breaks the invariant; no collision freedom is needed. */
  lemma {:induction false} RunConsistent(digest: Digest, ops: seq<Op>)
    ensures Consistent(digest, Run(digest, ops))
  {
    if ops != [] {
      RunConsistent(digest, ops[..|ops| - 1]);
      var s := Run(digest, ops[..|ops| - 1]);
      match ops[|ops| - 1]
      case Store(b, k, c, now) => StoreCorrect(digest, s, b, k, c, now);
      case Delete(b, k) => DeleteCorrect(digest, s, b, k);
      case Move(b, k, db, dk) => MoveCorrect(digest, s, b, k, db, dk);
    }
  }

  ghost function ContentsStored(ops: seq<Op>): set<Bytes> {
    set op | op in ops && op.Store? :: op.content
  }

  ghost predicate NoCollision(digest: Digest, contents: set<Bytes>) {
    forall c, d | c in contents && d in contents && digest(c) == digest(d) :: c == d
  }

  lemma StepRefines(digest: Digest, s: State, op: Op, contents: set<Bytes>)
    requires Consistent(digest, s) && s.files.Values <= contents
    requires NoCollision(digest, contents) && (op.Store? ==> op.content in contents)
    ensures Contents(Apply(digest, s, op)) == ApplyPlain(Contents(s), op)
  {
    hide RefKey;
    match op
    case Store(b, k, c, now) =>
      StoreCorrect(digest, s, b, k, c, now);
      hide StoreTxn;
      if digest(c) in s.files {
        assert s.files[digest(c)] in s.files.Values && digest(c) in s.blobs;
      }
    case Delete(b, k) => DeleteCorrect(digest, s, b, k);
    case Move(b, k, db, dk) => MoveCorrect(digest, s, b, k, db, dk);
  }

  /** Every file holds something that was stored. */
  lemma FilesOrigin(digest: Digest, s: State, op: Op)
    ensures Apply(digest, s, op).files.Values <= s.files.Values + (if op.Store? then {op.content} else {})
  {
  }

  /** After any run whose contents do not collide, the store is the plain map that the operations describe. */
  lemma {:induction false} RefinesPlainMap(digest: Digest, ops: seq<Op>)
    requires NoCollision(digest, ContentsStored(ops))
    ensures Contents(Run(digest, ops)) == RunPlain(ops)
    ensures Run(digest, ops).files.Values <= ContentsStored(ops)
  {
    if ops != [] {
      var before, op := ops[..|ops| - 1], ops[|ops| - 1];
      assert ContentsStored(before) <= ContentsStored(ops);
      RefinesPlainMap(digest, before);
      RunConsistent(digest, before);
      assert op in ops;
      StepRefines(digest, Run(digest, before), op, ContentsStored(ops));
      FilesOrigin(digest, Run(digest, before), op);
    }
  }

  lemma CollidingRun(digest: Digest, c: Bytes, d: Bytes)
    requires digest(c) == digest(d)
    ensures var ops := [Store("b", "x", c, 0), Store("b", "y", d, 0)];
            && RefKey("b", "y") in RunPlain(ops) && RunPlain(ops)[RefKey("b", "y")] == d
            && RefKey("b", "y") in Contents(Run(digest, ops)) && Contents(Run(digest, ops))[RefKey("b", "y")] == c
  {
    var first, second := Store("b", "x", c, 0), Store("b", "y", d, 0);
    var ops := [first, second];
    RefKeysApart("b", "x", "b", "y", "");
    assert ops[..1] == [first] && [first][..0] == [];
    assert Run(digest, [first]) == Apply(digest, EMPTY, first);
    assert Run(digest, ops) == Apply(digest, Run(digest, [first]), second);
    assert RunPlain(ops) == ApplyPlain(RunPlain([first]), second);
    RunConsistent(digest, [first]);
    StoreCorrect(digest, Run(digest, [first]), "b", "y", d, 0);
  }

  /** With a single collision the store is no longer a map: two stores suffice. Hence the store refines the
      plain map on all runs exactly when the digest is injective. */
  lemma RefinementNeedsInjectivity(digest: Digest)
    ensures (forall ops :: Contents(Run(digest, ops)) == RunPlain(ops)) <==>
            (forall c, d :: digest(c) == digest(d) ==> c == d)
  {
    hide Run, RunPlain, Contents;
    if forall c, d :: digest(c) == digest(d) ==> c == d {
      forall ops
        ensures Contents(Run(digest, ops)) == RunPlain(ops)
      {
        RefinesPlainMap(digest, ops);
      }
    }
    if c, d :| digest(c) == digest(d) && c != d {
      CollidingRun(digest, c, d);
      assert exists ops :: Contents(Run(digest, ops)) != RunPlain(ops);
    }
  }

  lemma MovedIsRename<V>(m: map<string, V>, src: string, dst: string)
    ensures Moved(m, src, dst) == (if src in m then (m - {src})[dst := m[src]] else m) <==> src != dst || src !in m
  {
    if src in m && src == dst {
      assert src !in Moved(m, src, dst);
    }
  }

  /** A move is a rename of the plain map exactly when source and destination differ (or there is no source):
      moving an object onto itself deletes it. */
  lemma MoveIsRenameIff(digest: Digest, s: State, srcBucket: string, srcKey: string, dstBucket: string, dstKey: string)
    requires Consistent(digest, s)
    ensures var src, dst := RefKey(srcBucket, srcKey), RefKey(dstBucket, dstKey);
            var renamed := if src in Contents(s) then (Contents(s) - {src})[dst := Contents(s)[src]] else Contents(s);
            Contents(MoveTxn(s, srcBucket, srcKey, dstBucket, dstKey).0) == renamed <==>
            (src != dst || src !in s.refs)
  {
    MoveCorrect(digest, s, srcBucket, srcKey, dstBucket, dstKey);
    ContentsTotal(digest, s);
    hide Balanced, RefKey, MoveTxn, Moved, Contents;
    MovedIsRename(Contents(s), RefKey(srcBucket, srcKey), RefKey(dstBucket, dstKey));
  }

  // ---- The same, told with bucket and key names ----

  type Name = (string, string)

  ghost predicate Over(op: Op, names: set<Name>) {
    (op.bucket, op.key) in names && (op.Move? ==> (op.dstBucket, op.dstKey) in names)
  }

  /** No two of the names share a reference key; so it is for buckets without colons. */
  ghost predicate NamesApart(names: set<Name>) {
    forall n, m | n in names && m in names && RefKey(n.0, n.1) == RefKey(m.0, m.1) :: n == m
  }

  lemma ColonFreeApart(names: set<Name>)
    requires forall n | n in names :: ColonFree(n.0)
    ensures NamesApart(names)
  {
    forall n, m | n in names && m in names && RefKey(n.0, n.1) == RefKey(m.0, m.1)
      ensures n == m
    {
      RefKeysApart(n.0, n.1, m.0, m.1, "");
      assert n == (n.0, n.1) && m == (m.0, m.1);
    }
  }

  function ApplyNamed(m: map<Name, Bytes>, op: Op): map<Name, Bytes> {
    match op
    case Store(b, k, c, _) => m[(b, k) := c]
    case Delete(b, k) => m - {(b, k)}
    case Move(b, k, db, dk) =>
      if (b, k) !in m then m
      else if (b, k) == (db, dk) then m - {(b, k)}
      else m[(db, dk) := m[(b, k)]] - {(b, k)}
  }

  function RunNamed(ops: seq<Op>): map<Name, Bytes> {
    if ops == [] then map[] else ApplyNamed(RunNamed(ops[..|ops| - 1]), ops[|ops| - 1])
  }

  lemma {:induction false} NamedAgrees(ops: seq<Op>, names: set<Name>, bucket: string, key: string)
    requires (bucket, key) in names && NamesApart(names) && forall op | op in ops :: Over(op, names)
    ensures (bucket, key) in RunNamed(ops) <==> RefKey(bucket, key) in RunPlain(ops)
    ensures (bucket, key) in RunNamed(ops) ==> RunNamed(ops)[(bucket, key)] == RunPlain(ops)[RefKey(bucket, key)]
  {
    hide RefKey;
    if ops != [] {
      var before, op := ops[..|ops| - 1], ops[|ops| - 1];
      assert op in ops && Over(op, names);
      NamedAgrees(before, names, bucket, key);
      NamedAgrees(before, names, op.bucket, op.key);
    }
  }

  /** A read at the end of a run gives the content last stored at, or moved to, that name, and nothing when there is
      none. */
  ghost predicate ReadsAsNamed(digest: Digest, ops: seq<Op>, n: Name) {
    var now := RunNamed(ops);
    Lookup(Run(digest, ops), n.0, n.1) == if n in now then Ok((now[n], digest(now[n]))) else Err(ObjectNotFound)
  }

  lemma GetAfterAnyRun(digest: Digest, ops: seq<Op>, names: set<Name>, n: Name)
    requires NoCollision(digest, ContentsStored(ops)) && NamesApart(names)
    requires n in names && forall op | op in ops :: Over(op, names)
    ensures ReadsAsNamed(digest, ops, n)
  {
    assert n == (n.0, n.1);
    RunConsistent(digest, ops);
    RefinesPlainMap(digest, ops);
    NamedAgrees(ops, names, n.0, n.1);
    ContentsTotal(digest, Run(digest, ops));
  }

  /** A store under one name is read back under any other name with its reference key. */
  lemma StoreSeenFrom(digest: Digest, n: Name, m: Name)
    requires RefKey(n.0, n.1) == RefKey(m.0, m.1) && n != m
    ensures !ReadsAsNamed(digest, [Store(n.0, n.1, [], 0)], m)
  {
    var op := Store(n.0, n.1, [], 0);
    assert [op][..0] == [];
    assert n == (n.0, n.1);
    StoreCorrect(digest, EMPTY, n.0, n.1, [], 0);
    assert Run(digest, [op]) == StoreTxn(digest, EMPTY, n.0, n.1, [], 0).0;
    assert Run(digest, []) == EMPTY && RunNamed([]) == map[];
    assert RunNamed([op]) == map[n := []];
    hide RefKey, StoreTxn, Balanced;
    ContentsTotal(digest, Run(digest, [op]));
  }

  /** With any names, colons or not: all reads after all runs over them are right exactly when no two of them share a
      reference key. */
  lemma GetAfterAnyRunIff(digest: Digest, names: set<Name>)
    ensures (forall ops, n | n in names && NoCollision(digest, ContentsStored(ops)) &&
                             (forall op | op in ops :: Over(op, names)) ::
               ReadsAsNamed(digest, ops, n)) <==> NamesApart(names)
  {
    if NamesApart(names) {
      forall ops, n | n in names && NoCollision(digest, ContentsStored(ops)) &&
                      (forall op | op in ops :: Over(op, names))
        ensures ReadsAsNamed(digest, ops, n)
      {
        GetAfterAnyRun(digest, ops, names, n);
      }
    } else {
      var n, m :| n in names && m in names && RefKey(n.0, n.1) == RefKey(m.0, m.1) && n != m;
      var ops := [Store(n.0, n.1, [], 0)];
      assert n == (n.0, n.1);
      StoreSeenFrom(digest, n, m);
      assert Over(ops[0], names) && NoCollision(digest, ContentsStored(ops));
    }
  }

  // ---- Statistics ----

  ghost function Sizes(blobs: map<Hash, BlobInfo>): map<Hash, int> {
    map h | h in blobs :: blobs[h].size
  }

  ghost function LogicalSizes(blobs: map<Hash, BlobInfo>): map<Hash, int> {
    map h | h in blobs :: blobs[h].size * blobs[h].refCount
  }

  ghost function Lengths(m: map<string, Bytes>): map<string, int> {
    map name | name in m :: |m[name]|
  }

  lemma LogicalByTarget(digest: Digest, s: State)
    requires Consistent(digest, s)
    ensures WeightByTarget(Sizes(s.blobs), Owners(s.refs)) == LogicalSizes(s.blobs)
  {
    hide Fibre;
  }

  lemma LengthsBySource(digest: Digest, s: State)
    requires Consistent(digest, s)
    ensures Owners(s.refs).Values <= Sizes(s.blobs).Keys
    ensures WeightBySource(Sizes(s.blobs), Owners(s.refs)) == Lengths(Contents(s))
  {
    hide Fibre;
    var owner := Owners(s.refs);
    forall n | n in owner
      ensures owner[n] in s.files && s.blobs[owner[n]].size == |s.files[owner[n]]|
    {
    }
    hide Balanced;
    assert Lengths(Contents(s)).Keys == owner.Keys;
  }

  lemma LogicalBytesMeaning(digest: Digest, s: State)
    requires Consistent(digest, s)
    ensures Sum(LogicalSizes(s.blobs)) == Sum(Lengths(Contents(s)))
  {
    LogicalByTarget(digest, s);
    LengthsBySource(digest, s);
    hide Consistent, Owners, Sizes, WeightByTarget, WeightBySource, LogicalSizes, Lengths, Sum;
    DoubleCounting(Sizes(s.blobs), Owners(s.refs));
  }

  ghost function Ones(blobs: map<Hash, BlobInfo>): map<Hash, int> {
    map h | h in blobs :: 1
  }

  lemma SameKeysSameSize<K, V, W>(a: map<K, V>, b: map<K, W>)
    requires a.Keys == b.Keys
    ensures |a| == |b|
  {
    assert |a| == |a.Keys| && |b| == |b.Keys|;
  }

  lemma EveryBlobCounted(digest: Digest, s: State)
    requires Consistent(digest, s)
    ensures |s.blobs| <= Sum(WeightByTarget(Ones(s.blobs), Owners(s.refs)))
  {
    var ones, counts := Ones(s.blobs), WeightByTarget(Ones(s.blobs), Owners(s.refs));
    assert forall h | h in ones :: ones[h] <= counts[h];
    hide Balanced, Fibre;
    SumMonotone(ones, counts);
    SumOfOnes(ones);
    SameKeysSameSize(ones, s.blobs);
  }

  lemma BlobsAtMostReferences(digest: Digest, s: State)
    requires Consistent(digest, s)
    ensures |s.blobs| <= |s.refs|
  {
    var ones, owner := Ones(s.blobs), Owners(s.refs);
    assert owner.Values <= ones.Keys;
    EveryBlobCounted(digest, s);
    hide Balanced, Fibre, Sum, WeightByTarget;
    DoubleCounting(ones, owner);
    SumOfOnes(WeightBySource(ones, owner));
    SameKeysSameSize(WeightBySource(ones, owner), s.refs);
  }

  lemma {:induction false} InjectiveImageSize<K, V>(m: map<K, V>)
    requires forall j, k | j in m && k in m && m[j] == m[k] :: j == k
    ensures |m.Values| == |m|
    decreases |m|
  {
    if m == map[] {
      assert m.Values == {};
    } else {
      var k :| k in m;
      var rest := m - {k};
      InjectiveImageSize(rest);
      assert m[k] !in rest.Values;
      forall v | v in m.Values
        ensures v in rest.Values + {m[k]}
      {
        var j :| j in m && m[j] == v;
        if j != k {
          assert rest[j] == v;
        }
      }
      forall v | v in rest.Values
        ensures v in m.Values
      {
        var j :| j in rest && rest[j] == v;
        assert m[j] == v;
      }
      assert m.Values == rest.Values + {m[k]};
    }
  }

  lemma BlobsAreDistinctContents(digest: Digest, s: State)
    requires Consistent(digest, s)
    ensures |s.blobs| == |Contents(s).Values|
  {
    forall g, h | g in s.files && h in s.files && s.files[g] == s.files[h]
      ensures g == h
    {
      assert g in s.blobs && h in s.blobs;
    }
    InjectiveImageSize(s.files);
    assert |s.files.Keys| == |s.files| && |s.blobs.Keys| == |s.blobs|;
    forall c | c in s.files.Values
      ensures c in Contents(s).Values
    {
      var h :| h in s.files && s.files[h] == c;
      assert h in s.blobs;
      var n :| n in Fibre(Owners(s.refs), h);
      assert n in Contents(s) && Contents(s)[n] == c;
    }
    assert Contents(s).Values == s.files.Values;
  }

  lemma ProductAtLeast(x: nat, n: int)
    requires n >= 1
    ensures x <= x * n
    ensures x == x * n <==> n == 1 || x == 0
  {
    assert x * n == x + x * (n - 1);
    if n > 1 && x > 0 {
      assert x * (n - 1) >= x;
    }
  }

  lemma SizesBelow(digest: Digest, s: State, h: Hash)
    requires Consistent(digest, s) && h in s.blobs
    ensures Sizes(s.blobs)[h] <= LogicalSizes(s.blobs)[h]
    ensures Sizes(s.blobs)[h] == LogicalSizes(s.blobs)[h] <==> s.blobs[h].refCount == 1 || s.blobs[h].size == 0
  {
    ProductAtLeast(s.blobs[h].size, s.blobs[h].refCount);
  }

  ghost predicate SinglyCounted(s: State) {
    forall h | h in s.blobs :: s.blobs[h].refCount == 1 || s.blobs[h].size == 0
  }

  lemma SavingsSign(digest: Digest, s: State)
    requires Consistent(digest, s)
    ensures Sum(Sizes(s.blobs)) <= Sum(LogicalSizes(s.blobs))
    ensures Sum(Sizes(s.blobs)) == Sum(LogicalSizes(s.blobs)) <==> SinglyCounted(s)
  {
    hide Consistent, Sum;
    var a, b := Sizes(s.blobs), LogicalSizes(s.blobs);
    forall h | h in s.blobs
      ensures a[h] <= b[h]
      ensures a[h] == b[h] <==> s.blobs[h].refCount == 1 || s.blobs[h].size == 0
    {
      SizesBelow(digest, s, h);
    }
    SumMonotone(a, b);
    assert a == b <==> forall h | h in s.blobs :: a[h] == b[h];
  }

  ghost predicate NothingShared(s: State) {
    forall m, n | m in Contents(s) && n in Contents(s) && m != n && Contents(s)[m] == Contents(s)[n] ::
      Contents(s)[m] == []
  }

  lemma SinglyCountedMeansUnshared(digest: Digest, s: State)
    requires Consistent(digest, s) && SinglyCounted(s)
    ensures NothingShared(s)
  {
    var owner, all := Owners(s.refs), Contents(s);
    forall m, n | m in all && n in all && m != n && all[m] == all[n]
      ensures all[m] == []
    {
      var h := owner[m];
      assert h in s.blobs && owner[n] in s.blobs && owner[n] == h;
      FibreRemove(owner, m, h);
      assert n in Fibre(owner - {m}, h);
    }
  }

  lemma UnsharedMeansSinglyCounted(digest: Digest, s: State)
    requires Consistent(digest, s) && NothingShared(s)
    ensures SinglyCounted(s)
  {
    var owner, all := Owners(s.refs), Contents(s);
    ContentsTotal(digest, s);
    forall h | h in s.blobs && s.blobs[h].refCount > 1
      ensures s.blobs[h].size == 0
    {
      var m :| m in Fibre(owner, h);
      FibreRemove(owner, m, h);
      var n :| n in Fibre(owner - {m}, h);
      assert all[m] == all[n] == s.files[h];
    }
  }

  /** The statistics of a consistent store, explained by the plain map alone: one blob per distinct content,
      logical bytes as if nothing were shared, and a saving of zero exactly when nothing non-empty is shared. */
  lemma StatsMeaning(digest: Digest, s: State)
    requires Consistent(digest, s)
    ensures Sum(LogicalSizes(s.blobs)) == Sum(Lengths(Contents(s)))
    ensures |s.blobs| == |Contents(s).Values| <= |s.refs| == |Contents(s)|
    ensures Sum(Sizes(s.blobs)) <= Sum(LogicalSizes(s.blobs))
    ensures Sum(Sizes(s.blobs)) == Sum(LogicalSizes(s.blobs)) <==> NothingShared(s)
  {
    ContentsTotal(digest, s);
    LogicalBytesMeaning(digest, s);
    BlobsAreDistinctContents(digest, s);
    BlobsAtMostReferences(digest, s);
    SavingsSign(digest, s);
    SameKeysSameSize(s.refs, Contents(s));
    if SinglyCounted(s) {
      SinglyCountedMeansUnshared(digest, s);
    }
    if NothingShared(s) {
      UnsharedMeansSinglyCounted(digest, s);
    }
  }

  lemma NoBlobs()
    ensures Sum(Sizes(map[])) == 0 == Sum(LogicalSizes(map[]))
  {
    assert Sizes(map[]) == map[] == LogicalSizes(map[]);
  }

  lemma AddBlob(seen: map<Hash, BlobInfo>, h: Hash, info: BlobInfo)
    requires h !in seen
    ensures Sum(Sizes(seen[h := info])) == Sum(Sizes(seen)) + info.size
    ensures Sum(LogicalSizes(seen[h := info])) == Sum(LogicalSizes(seen)) + info.size * info.refCount
  {
    SumPut(Sizes(seen), h, info.size);
    SumPut(LogicalSizes(seen), h, info.size * info.refCount);
    assert Sizes(seen)[h := info.size] == Sizes(seen[h := info]);
    assert LogicalSizes(seen)[h := info.size * info.refCount] == LogicalSizes(seen[h := info]);
  }

  // ---- The store itself ----

  /** The store as a program: the fields are the two Badger record families and the blob directory. Each
      operation works step by step; its contract is the transaction on values plus, from a consistent
      state, what the caller was promised. */
  class Store {
    const digest: Digest
    var blobs: map<Hash, BlobInfo>
    var refs: map<string, Reference>
    var files: map<Hash, Bytes>

    ghost function Value(): State
      reads this
    {
      State(blobs, refs, files)
    }

    ghost predicate Valid()
      reads this
    {
      Consistent(digest, Value())
    }

    constructor (digest: Digest)
      ensures this.digest == digest && Valid() && Contents(Value()) == map[]
    {
      this.digest := digest;
      blobs, refs, files := map[], map[], map[];
    }

    /** Works on the transaction's view of the blob records; a removed blob file is gone at once. */
    method DecrementRefCount(view: map<Hash, BlobInfo>, h: Hash)
      returns (view': map<Hash, BlobInfo>, r: Result<(), Error>)
      modifies this`files
      ensures match Decrement(State(view, refs, old(files)), h)
              case Err(e) => r == Err(e) && view' == view && files == old(files)
              case Ok(t) => r == Ok(()) && view' == t.blobs && files == t.files
    {
      if h !in view {
        return view, Err(BlobRecordMissing);
      }
      var info := view[h];
      info := info.(refCount := info.refCount - 1);
      if info.refCount <= 0 {
        files := files - {h};
        return view - {h}, Ok(());
      }
      return view[h := info], Ok(());
    }

    method Put(bucket: string, key: string, content: Bytes, now: int) returns (r: Result<(Hash, nat), Error>)
      modifies this
      ensures (Value(), r) == StoreTxn(digest, old(Value()), bucket, key, content, now)
      ensures old(Valid()) ==> Valid() && r == Ok((digest(content), |content|))
      ensures old(Valid()) && (digest(content) in old(files) ==> old(files)[digest(content)] == content) ==>
                Contents(Value()) == old(Contents(Value()))[RefKey(bucket, key) := content]
    {
      hide Consistent, RefKey, Contents;
      if old(Valid()) {
        StoreCorrect(digest, old(Value()), bucket, key, content, now);
      }
      var h, name := digest(content), RefKey(bucket, key);
      var info := BlobInfo(h, |content|, 1, now);
      if h in blobs {
        info := blobs[h].(refCount := blobs[h].refCount + 1);
      } else {
        files := files[h := content];
      }
      var view := blobs;
      if name in refs {
        if refs[name].blobHash != h {
          var released;
          view, released := DecrementRefCount(view, refs[name].blobHash);
          if released.Err? {
            return Err(released.error);
          }
        } else {
          info := info.(refCount := info.refCount - 1);
        }
      }
      blobs := view[h := info];
      refs := refs[name := Reference(bucket, key, h, now)];
      return Ok((h, |content|));
    }

    method Get(bucket: string, key: string) returns (r: Result<(Bytes, Hash), Error>)
      ensures r == Lookup(Value(), bucket, key)
      ensures Valid() ==>
                r == if RefKey(bucket, key) in Contents(Value())
                     then Ok((Contents(Value())[RefKey(bucket, key)], digest(Contents(Value())[RefKey(bucket, key)])))
                     else Err(ObjectNotFound)
    {
      if Valid() {
        ContentsTotal(digest, Value());
      }
      var name := RefKey(bucket, key);
      if name !in refs {
        return Err(ObjectNotFound);
      }
      var h := refs[name].blobHash;
      if h !in files {
        return Err(BlobFileMissing);
      }
      return Ok((files[h], h));
    }

    method Remove(bucket: string, key: string) returns (r: Result<(), Error>)
      modifies this
      ensures (Value(), r) == DeleteTxn(old(Value()), bucket, key)
      ensures old(Valid()) ==>
                Valid() && r == Ok(()) && Contents(Value()) == old(Contents(Value())) - {RefKey(bucket, key)}
    {
      hide Consistent, RefKey, Contents;
      if old(Valid()) {
        DeleteCorrect(digest, old(Value()), bucket, key);
      }
      var name := RefKey(bucket, key);
      if name !in refs {
        return Ok(());
      }
      var view, released := DecrementRefCount(blobs, refs[name].blobHash);
      if released.Err? {
        return Err(released.error);
      }
      blobs, refs := view, refs - {name};
      return Ok(());
    }

    method Rename(srcBucket: string, srcKey: string, dstBucket: string, dstKey: string) returns (r: Result<(), Error>)
      modifies this
      ensures (Value(), r) == MoveTxn(old(Value()), srcBucket, srcKey, dstBucket, dstKey)
      ensures old(Valid()) ==>
                && Valid()
                && r == (if RefKey(srcBucket, srcKey) in old(refs) then Ok(()) else Err(SourceNotFound))
                && Contents(Value()) ==
                   Moved(old(Contents(Value())), RefKey(srcBucket, srcKey), RefKey(dstBucket, dstKey))
    {
      hide Consistent, RefKey, Contents;
      if old(Valid()) {
        MoveCorrect(digest, old(Value()), srcBucket, srcKey, dstBucket, dstKey);
      }
      var src, dst := RefKey(srcBucket, srcKey), RefKey(dstBucket, dstKey);
      if src !in refs {
        return Err(SourceNotFound);
      }
      var srcRef := refs[src];
      var view := blobs;
      if dst in refs {
        var released;
        if refs[dst].blobHash != srcRef.blobHash {
          view, released := DecrementRefCount(view, refs[dst].blobHash);
        } else {
          view, released := DecrementRefCount(view, srcRef.blobHash);
        }
        if released.Err? {
          return Err(released.error);
        }
      }
      blobs := view;
      refs := refs[dst := Reference(dstBucket, dstKey, srcRef.blobHash, srcRef.createdAt)];
      refs := refs - {src};
      return Ok(());
    }

    /** The first loop of the statistics: the blob records in key order. */
    method CountBlobs() returns (count: nat, total: int, logical: int)
      ensures count == |blobs| && total == Sum(Sizes(blobs)) && logical == Sum(LogicalSizes(blobs))
    {
      hide Ascending, SortedKeys, Sizes, LogicalSizes, Sum;
      NoBlobs();
      var keys := SortedKeys(blobs.Keys);
      AscendingDistinct(keys);
      count, total, logical := 0, 0, 0;
      ghost var seen: map<Hash, BlobInfo> := map[];
      while count < |keys|
        invariant 0 <= count <= |keys|
        invariant forall h :: h in seen <==> h in keys[..count]
        invariant forall h | h in seen :: h in blobs && seen[h] == blobs[h]
        invariant total == Sum(Sizes(seen)) && logical == Sum(LogicalSizes(seen))
      {
        var h := keys[count];
        var info := blobs[h];
        AddBlob(seen, h, info);
        seen := seen[h := info];
        count, total, logical := count + 1, total + info.size, logical + info.size * info.refCount;
      }
      assert seen == blobs;
      assert |blobs.Keys| == |blobs|;
    }

    method GetStats() returns (stats: Stats)
      ensures stats.totalBlobs == |blobs| && stats.totalReferences == |refs|
      ensures stats.totalBytes == Sum(Sizes(blobs)) && stats.logicalBytes == Sum(LogicalSizes(blobs))
      ensures stats.bytesSaved == stats.logicalBytes - stats.totalBytes
      ensures Valid() ==>
                && stats.totalBlobs == |Contents(Value()).Values| <= stats.totalReferences
                && stats.logicalBytes == Sum(Lengths(Contents(Value())))
                && stats.bytesSaved >= 0
                && (stats.bytesSaved == 0 <==> NothingShared(Value()))
    {
      hide Consistent, Contents, Sum, NothingShared, Lengths;
      var count, total, logical := CountBlobs();
      stats := Stats(count, |refs|, total, logical, logical - total);
      if Valid() {
        StatsMeaning(digest, Value());
      }
    }
  }
}
