/** Object metadata in one Badger key space: the object records, the per-user index beside them, and when the
    listings that use the index agree with the records. */
module Metadata {
  import opened Prelude
  import opened MapSums
  import opened Text
  import opened FlatKeys

  type Name = (string, string)

  datatype ObjectMeta = ObjectMeta(bucket: string, key: string, size: nat, userId: string, expiresAt: Option<int>)

  /** The value under a key: an object's metadata, or the empty value of an index entry. */
  datatype Record = Object(meta: ObjectMeta) | IndexEntry

  type Db = map<string, Record>

  // ---- Transactions on the key space ----

  function PutTxn(db: Db, meta: ObjectMeta): Db {
    var stored := db[ObjectKey(meta.bucket, meta.key) := Object(meta)];
    if meta.userId != "" then stored[UserObjectKey(meta.userId, meta.bucket, meta.key) := IndexEntry] else stored
  }

  function GetTxn(db: Db, bucket: string, key: string): Option<ObjectMeta> {
    var k := ObjectKey(bucket, key);
    if k in db && db[k].Object? then Some(db[k].meta) else None
  }

  function DeleteTxn(db: Db, bucket: string, key: string): Db {
    match GetTxn(db, bucket, key)
    case None => db
    case Some(meta) =>
      var removed := db - {ObjectKey(bucket, key)};
      if meta.userId != "" then removed - {UserObjectKey(meta.userId, bucket, key)} else removed
  }

  /** The keys with a prefix, in key order. */
  function Scan(db: Db, prefix: string): seq<string> {
    SortedKeys(set k | k in db && prefix <= k)
  }

  /** The object an index key leads to, if it parses and the object exists. */
  function Follow(db: Db, userId: string, indexKey: string): Option<ObjectMeta> {
    var parts := SplitTwo(TrimPrefix(indexKey, UserObjectsPrefix(userId)), ':');
    if |parts| != 2 then None else GetTxn(db, parts[0], parts[1])
  }

  function FollowAll(db: Db, userId: string, keys: seq<string>): seq<ObjectMeta> {
    if keys == [] then [] else
      var found := Follow(db, userId, keys[|keys| - 1]);
      FollowAll(db, userId, keys[..|keys| - 1]) + if found.Some? then [found.value] else []
  }

  function ListByUserTxn(db: Db, userId: string): seq<ObjectMeta> {
    FollowAll(db, userId, Scan(db, UserObjectsPrefix(userId)))
  }

  predicate Expired(meta: ObjectMeta, now: int) {
    meta.expiresAt.Some? && meta.expiresAt.value < now
  }

  /** The object records under the keys, all of them or the expired ones only. */
  function Records(db: Db, keys: seq<string>, expiredAt: Option<int>): seq<ObjectMeta> {
    if keys == [] then [] else
      var k := keys[|keys| - 1];
      Records(db, keys[..|keys| - 1], expiredAt) +
      if k in db && db[k].Object? && (expiredAt.Some? ==> Expired(db[k].meta, expiredAt.value))
      then [db[k].meta] else []
  }

  function TotalSize(metas: seq<ObjectMeta>): int {
    if metas == [] then 0 else TotalSize(metas[..|metas| - 1]) + metas[|metas| - 1].size
  }

  // ---- What the key space stands for ----

  /** The primary map and the index, as sets and maps of names. */
  datatype View = View(objects: map<Name, ObjectMeta>, index: set<(string, Name)>)

  const NOTHING: View := View(map[], {})

  function NameOf(meta: ObjectMeta): Name {
    (meta.bucket, meta.key)
  }

  function PutView(v: View, meta: ObjectMeta): View {
    View(v.objects[NameOf(meta) := meta], v.index + if meta.userId != "" then {(meta.userId, NameOf(meta))} else {})
  }

  function DeleteView(v: View, n: Name): View {
    if n !in v.objects then v
    else View(v.objects - {n}, v.index - {(v.objects[n].userId, n)})
  }

  function IndexKey(e: (string, Name)): string {
    UserObjectKey(e.0, e.1.0, e.1.1)
  }

  /** Objects under their names, index entries for all owned ones, and no two index entries with one key. */
  ghost predicate PlainView(v: View) {
    && (forall n | n in v.objects :: NameOf(v.objects[n]) == n)
    && (forall e | e in v.index :: e.0 != "")
    && (forall n | n in v.objects && v.objects[n].userId != "" :: (v.objects[n].userId, n) in v.index)
    && forall e, f | e in v.index && f in v.index && IndexKey(e) == IndexKey(f) :: e == f
  }

  /** No other object is stored under the key of `n`. */
  ghost predicate Unaliased(v: View, n: Name) {
    forall m | m in v.objects && ObjectKey(m.0, m.1) == ObjectKey(n.0, n.1) :: m == n
  }

  ghost predicate ObjectsStored(db: Db, v: View) {
    forall n | n in v.objects :: ObjectKey(n.0, n.1) in db && db[ObjectKey(n.0, n.1)] == Object(v.objects[n])
  }

  ghost predicate IndexStored(db: Db, v: View) {
    forall e | e in v.index :: IndexKey(e) in db && db[IndexKey(e)] == IndexEntry
  }

  ghost predicate IsObjectKey(k: string, v: View) {
    exists n | n in v.objects :: k == ObjectKey(n.0, n.1)
  }

  ghost predicate IsIndexKey(k: string, v: View) {
    exists e | e in v.index :: k == IndexKey(e)
  }

  ghost predicate NothingElse(db: Db, v: View) {
    forall k | k in db :: IsObjectKey(k, v) || IsIndexKey(k, v)
  }

  ghost predicate Represents(db: Db, v: View) {
    PlainView(v) && ObjectsStored(db, v) && IndexStored(db, v) && NothingElse(db, v)
  }

  lemma PutStores(db: Db, v: View, meta: ObjectMeta)
    requires PlainView(v) && ObjectsStored(db, v) && IndexStored(db, v) && Unaliased(v, NameOf(meta))
    ensures ObjectsStored(PutTxn(db, meta), PutView(v, meta)) && IndexStored(PutTxn(db, meta), PutView(v, meta))
  {
    var db', v' := PutTxn(db, meta), PutView(v, meta);
    hide ObjectKey, UserObjectKey;
    forall n | n in v'.objects
      ensures ObjectKey(n.0, n.1) in db' && db'[ObjectKey(n.0, n.1)] == Object(v'.objects[n])
    {
      FamiliesApart(meta.userId, n.0, n.1, meta.bucket, meta.key);
      assert n == (n.0, n.1);
    }
    forall e | e in v'.index
      ensures IndexKey(e) in db' && db'[IndexKey(e)] == IndexEntry
    {
      FamiliesApart(e.0, meta.bucket, meta.key, e.1.0, e.1.1);
    }
  }

  lemma PutAddsNothingElse(db: Db, v: View, meta: ObjectMeta)
    requires NothingElse(db, v)
    ensures NothingElse(PutTxn(db, meta), PutView(v, meta))
  {
    var db', v', m := PutTxn(db, meta), PutView(v, meta), NameOf(meta);
    hide ObjectKey, UserObjectKey;
    forall k | k in db'
      ensures IsObjectKey(k, v') || IsIndexKey(k, v')
    {
      if k == ObjectKey(m.0, m.1) {
        assert m in v'.objects;
      } else if meta.userId != "" && k == UserObjectKey(meta.userId, m.0, m.1) {
        assert (meta.userId, m) in v'.index;
      } else if IsObjectKey(k, v) {
        var n :| n in v.objects && k == ObjectKey(n.0, n.1);
        assert n in v'.objects;
      } else {
        var e :| e in v.index && k == IndexKey(e);
        assert e in v'.index;
      }
    }
  }

  lemma PutRepresents(db: Db, v: View, meta: ObjectMeta)
    requires Represents(db, v) && Unaliased(v, NameOf(meta)) && PlainView(PutView(v, meta))
    ensures Represents(PutTxn(db, meta), PutView(v, meta))
  {
    hide ObjectsStored, IndexStored, NothingElse, PutTxn, PlainView, Unaliased;
    PutStores(db, v, meta);
    PutAddsNothingElse(db, v, meta);
  }

  /** A lookup that finds something finds an object stored under that key. */
  lemma FoundObject(db: Db, v: View, bucket: string, key: string)
    requires Represents(db, v) && GetTxn(db, bucket, key).Some?
    ensures var m := NameOf(GetTxn(db, bucket, key).value);
            && m in v.objects && ObjectKey(m.0, m.1) == ObjectKey(bucket, key)
            && GetTxn(db, bucket, key).value == v.objects[m]
  {
    hide ObjectKey, UserObjectKey;
    var n :| n in v.objects && ObjectKey(bucket, key) == ObjectKey(n.0, n.1);
    assert NameOf(v.objects[n]) == n;
  }

  lemma GetAgrees(db: Db, v: View, bucket: string, key: string)
    requires Represents(db, v) && Unaliased(v, (bucket, key))
    ensures GetTxn(db, bucket, key) == if (bucket, key) in v.objects then Some(v.objects[(bucket, key)]) else None
  {
    hide ObjectKey, UserObjectKey;
    if GetTxn(db, bucket, key).Some? {
      FoundObject(db, v, bucket, key);
    }
  }

  /** Stored objects are never under one key. */
  lemma StoredUnaliased(db: Db, v: View, n: Name)
    requires Represents(db, v) && n in v.objects
    ensures Unaliased(v, n)
  {
    hide ObjectKey, UserObjectKey;
    forall m | m in v.objects && ObjectKey(m.0, m.1) == ObjectKey(n.0, n.1)
      ensures m == n
    {
      assert db[ObjectKey(n.0, n.1)] == Object(v.objects[n]) == Object(v.objects[m]);
      assert NameOf(v.objects[n]) == n && NameOf(v.objects[m]) == m;
    }
  }

  lemma DeleteStores(db: Db, v: View, m: Name)
    requires PlainView(v) && ObjectsStored(db, v) && IndexStored(db, v) && Unaliased(v, m) && m in v.objects
    ensures ObjectsStored(DeleteTxn(db, m.0, m.1), DeleteView(v, m))
    ensures IndexStored(DeleteTxn(db, m.0, m.1), DeleteView(v, m))
  {
    var db', v', owner := DeleteTxn(db, m.0, m.1), DeleteView(v, m), v.objects[m].userId;
    hide ObjectKey, UserObjectKey;
    forall n | n in v'.objects
      ensures ObjectKey(n.0, n.1) in db' && db'[ObjectKey(n.0, n.1)] == Object(v'.objects[n])
    {
      FamiliesApart(owner, n.0, n.1, m.0, m.1);
    }
    forall e | e in v'.index
      ensures IndexKey(e) in db' && db'[IndexKey(e)] == IndexEntry
    {
      FamiliesApart(e.0, m.0, m.1, e.1.0, e.1.1);
      if owner != "" {
        assert (owner, m) in v.index && IndexKey((owner, m)) == UserObjectKey(owner, m.0, m.1);
      }
    }
  }

  lemma DeleteLeavesNothingElse(db: Db, v: View, m: Name)
    requires PlainView(v) && ObjectsStored(db, v) && NothingElse(db, v) && m in v.objects
    ensures NothingElse(DeleteTxn(db, m.0, m.1), DeleteView(v, m))
  {
    var db', v', owner := DeleteTxn(db, m.0, m.1), DeleteView(v, m), v.objects[m].userId;
    hide ObjectKey, UserObjectKey;
    forall k | k in db'
      ensures IsObjectKey(k, v') || IsIndexKey(k, v')
    {
      if IsObjectKey(k, v) {
        var n :| n in v.objects && k == ObjectKey(n.0, n.1);
        assert n in v'.objects;
      } else {
        var e :| e in v.index && k == IndexKey(e);
        assert e in v'.index;
      }
    }
  }

  lemma DeleteKeepsPlain(v: View, n: Name)
    requires PlainView(v)
    ensures PlainView(DeleteView(v, n))
  {
    hide IndexKey;
  }

  lemma DeleteRepresents(db: Db, v: View, bucket: string, key: string)
    requires Represents(db, v) && Unaliased(v, (bucket, key))
    ensures Represents(DeleteTxn(db, bucket, key), DeleteView(v, (bucket, key)))
  {
    GetAgrees(db, v, bucket, key);
    DeleteKeepsPlain(v, (bucket, key));
    hide ObjectsStored, IndexStored, NothingElse, ObjectKey, UserObjectKey, GetTxn, PlainView, Unaliased;
    if (bucket, key) in v.objects {
      DeleteStores(db, v, (bucket, key));
      DeleteLeavesNothingElse(db, v, (bucket, key));
    }
  }

  // ---- Runs ----

  datatype Op = Put(meta: ObjectMeta) | Delete(bucket: string, key: string)

  /** The object names and user ids that a run is about. */
  datatype Realm = Realm(names: iset<Name>, users: iset<string>)

  ghost predicate InRealm(e: (string, Name), r: Realm) {
    e.0 in r.users && e.0 != "" && e.1 in r.names
  }

  /** No two names share an object key, and no two entries of users share an index key. */
  ghost predicate KeysApart(r: Realm) {
    && (forall n, m | n in r.names && m in r.names && ObjectKey(n.0, n.1) == ObjectKey(m.0, m.1) :: n == m)
    && forall e: (string, Name), f: (string, Name) | InRealm(e, r) && InRealm(f, r) && IndexKey(e) == IndexKey(f) ::
         e == f
  }

  /** Buckets and users without colons, with any object keys, are kept apart. */
  lemma ColonFreeApart()
    ensures KeysApart(Realm(iset n: Name | ColonFree(n.0), iset u | ColonFree(u)))
  {
    var r := Realm(iset n: Name | ColonFree(n.0), iset u | ColonFree(u));
    forall n, m | n in r.names && m in r.names && ObjectKey(n.0, n.1) == ObjectKey(m.0, m.1)
      ensures n == m
    {
      ObjectKeysApart(n.0, n.1, m.0, m.1);
      assert n == (n.0, n.1) && m == (m.0, m.1);
    }
    forall e: (string, Name), f: (string, Name) | InRealm(e, r) && InRealm(f, r) && IndexKey(e) == IndexKey(f)
      ensures e == f
    {
      UserKeysApart(e.0, e.1.0, e.1.1, f.0, f.1.0, f.1.1);
      assert e == (e.0, (e.1.0, e.1.1)) && f == (f.0, (f.1.0, f.1.1));
    }
  }

  ghost predicate MetaWithin(meta: ObjectMeta, r: Realm) {
    NameOf(meta) in r.names && (meta.userId != "" ==> meta.userId in r.users)
  }

  ghost predicate OpWithin(op: Op, r: Realm) {
    match op
    case Put(meta) => MetaWithin(meta, r)
    case Delete(b, k) => (b, k) in r.names
  }

  ghost predicate ViewWithin(v: View, r: Realm) {
    (forall n | n in v.objects :: n in r.names) && forall e | e in v.index :: InRealm(e, r)
  }

  lemma WithinUnaliased(v: View, r: Realm, n: Name)
    requires KeysApart(r) && ViewWithin(v, r) && n in r.names
    ensures Unaliased(v, n)
  {
    hide ObjectKey;
  }

  lemma PutWithin(v: View, r: Realm, meta: ObjectMeta)
    requires KeysApart(r) && ViewWithin(v, r) && MetaWithin(meta, r) && PlainView(v)
    ensures ViewWithin(PutView(v, meta), r) && PlainView(PutView(v, meta)) && Unaliased(v, NameOf(meta))
  {
    hide ObjectKey, IndexKey;
    WithinUnaliased(v, r, NameOf(meta));
  }

  function Apply(db: Db, op: Op): Db {
    match op
    case Put(meta) => PutTxn(db, meta)
    case Delete(b, k) => DeleteTxn(db, b, k)
  }

  function Run(ops: seq<Op>): Db {
    if ops == [] then map[] else Apply(Run(ops[..|ops| - 1]), ops[|ops| - 1])
  }

  function ApplyView(v: View, op: Op): View {
    match op
    case Put(meta) => PutView(v, meta)
    case Delete(b, k) => DeleteView(v, (b, k))
  }

  function RunView(ops: seq<Op>): View {
    if ops == [] then NOTHING else ApplyView(RunView(ops[..|ops| - 1]), ops[|ops| - 1])
  }

  lemma StepRepresents(db: Db, v: View, op: Op, r: Realm)
    requires KeysApart(r) && OpWithin(op, r) && Represents(db, v) && ViewWithin(v, r)
    ensures Represents(Apply(db, op), ApplyView(v, op)) && ViewWithin(ApplyView(v, op), r)
  {
    hide KeysApart, ObjectsStored, IndexStored, NothingElse, PutTxn, DeleteTxn;
    match op
    case Put(meta) =>
      PutWithin(v, r, meta);
      PutRepresents(db, v, meta);
    case Delete(b, k) =>
      WithinUnaliased(v, r, (b, k));
      DeleteRepresents(db, v, b, k);
  }

  /** After any run over names and users whose keys are apart, the flat key space holds exactly the records of the
      primary map and the index. */
  lemma {:induction false} RunRepresents(ops: seq<Op>, r: Realm)
    requires KeysApart(r) && forall op | op in ops :: OpWithin(op, r)
    ensures Represents(Run(ops), RunView(ops)) && ViewWithin(RunView(ops), r)
  {
    if ops != [] {
      var before, op := ops[..|ops| - 1], ops[|ops| - 1];
      assert op in ops;
      RunRepresents(before, r);
      StepRepresents(Run(before), RunView(before), op, r);
    }
  }

  // ---- Listing by user ----

  ghost function Indexed(v: View, userId: string): set<Name> {
    set e | e in v.index && e.0 == userId && e.1 in v.objects :: e.1
  }

  ghost function Owned(v: View, userId: string): set<Name> {
    set n | n in v.objects && v.objects[n].userId == userId
  }

  ghost predicate DistinctNames(metas: seq<ObjectMeta>) {
    forall i, j | 0 <= i < j < |metas| :: NameOf(metas[i]) != NameOf(metas[j])
  }

  /** A listing that shows exactly the objects of `names`, each once. */
  ghost predicate ShowsExactly(metas: seq<ObjectMeta>, v: View, names: set<Name>) {
    && DistinctNames(metas)
    && (forall i | 0 <= i < |metas| :: NameOf(metas[i]) in names && NameOf(metas[i]) in v.objects &&
                                      metas[i] == v.objects[NameOf(metas[i])])
    && forall n | n in names :: n in v.objects && NameOf(v.objects[n]) == n && v.objects[n] in metas
  }

  lemma IsPlain(db: Db, v: View)
    requires Represents(db, v)
    ensures PlainView(v) && forall n | n in v.objects :: NameOf(v.objects[n]) == n
  {
    hide ObjectsStored, IndexStored, NothingElse;
  }

  lemma NothingShown(v: View)
    ensures ShowsExactly([], v, {})
  {
  }

  lemma AppendShown(metas: seq<ObjectMeta>, v: View, names: set<Name>, m: Name)
    requires ShowsExactly(metas, v, names) && m !in names && m in v.objects && NameOf(v.objects[m]) == m
    ensures ShowsExactly(metas + [v.objects[m]], v, names + {m})
  {
  }

  /** Wherever the parse cuts an index key, the object key it looks up is the packed text after the user's prefix. */
  lemma ParsedKey(userId: string, k: string, n: Name)
    requires UserObjectsPrefix(userId) <= k
    ensures var parts := SplitTwo(TrimPrefix(k, UserObjectsPrefix(userId)), ':');
            && (k == UserObjectKey(userId, n.0, n.1) ==> |parts| == 2)
            && (|parts| == 2 ==>
                  (ObjectKey(parts[0], parts[1]) == ObjectKey(n.0, n.1) <==> k == UserObjectKey(userId, n.0, n.1)))
  {
    var prefix, text := UserObjectsPrefix(userId), n.0 + ":" + n.1;
    var rest := TrimPrefix(k, prefix);
    var parts := SplitTwo(rest, ':');
    assert k == prefix + rest && UserObjectKey(userId, n.0, n.1) == prefix + text;
    assert k == UserObjectKey(userId, n.0, n.1) <==> rest == text by {
      assert (prefix + rest)[|prefix|..] == rest && (prefix + text)[|prefix|..] == text;
    }
    assert text[|n.0|] == ':';
    if |parts| == 2 {
      ObjectKeysApart(parts[0], parts[1], n.0, n.1);
    }
  }

  lemma FollowMeaning(db: Db, v: View, userId: string, k: string, n: Name)
    requires Represents(db, v) && UserObjectsPrefix(userId) <= k
    ensures n in v.objects && k == UserObjectKey(userId, n.0, n.1) ==> Follow(db, userId, k) == Some(v.objects[n])
    ensures Follow(db, userId, k).Some? ==>
              var m := NameOf(Follow(db, userId, k).value);
              m in v.objects && k == UserObjectKey(userId, m.0, m.1) && Follow(db, userId, k).value == v.objects[m]
  {
    hide UserObjectKey, ObjectKey, SplitTwo, TrimPrefix, UserObjectsPrefix, PlainView, IndexStored, NothingElse;
    var parts := SplitTwo(TrimPrefix(k, UserObjectsPrefix(userId)), ':');
    ParsedKey(userId, k, n);
    if Follow(db, userId, k).Some? {
      FoundObject(db, v, parts[0], parts[1]);
      ParsedKey(userId, k, NameOf(Follow(db, userId, k).value));
    }
  }

  /** The objects that some of the index keys lead a user to. */
  ghost function LedTo(v: View, userId: string, keys: seq<string>): set<Name> {
    set n | n in v.objects && UserObjectKey(userId, n.0, n.1) in keys
  }

  lemma LedToStep(v: View, userId: string, init: seq<string>, k: string)
    requires k !in init
    ensures LedTo(v, userId, init + [k]) ==
            LedTo(v, userId, init) + set n | n in v.objects && UserObjectKey(userId, n.0, n.1) == k
  {
    hide UserObjectKey;
  }

  lemma FollowOneShows(db: Db, v: View, userId: string, init: seq<string>, k: string)
    requires Represents(db, v) && UserObjectsPrefix(userId) <= k && k !in init
    requires ShowsExactly(FollowAll(db, userId, init), v, LedTo(v, userId, init))
    ensures var found := Follow(db, userId, k);
            ShowsExactly(FollowAll(db, userId, init) + (if found.Some? then [found.value] else []), v,
                         LedTo(v, userId, init + [k]))
  {
    var found, before := Follow(db, userId, k), FollowAll(db, userId, init);
    var here := set n | n in v.objects && UserObjectKey(userId, n.0, n.1) == k;
    LedToStep(v, userId, init, k);
    forall n | n in v.objects
      ensures n in here ==> found == Some(v.objects[n]) && NameOf(v.objects[n]) == n
      ensures found.Some? ==> NameOf(found.value) in here && found.value == v.objects[NameOf(found.value)]
    {
      FollowMeaning(db, v, userId, k, n);
      IsPlain(db, v);
    }
    if found.Some? {
      FollowMeaning(db, v, userId, k, NameOf(found.value));
    }
    hide Represents, Follow, FollowAll, UserObjectKey, UserObjectsPrefix, ShowsExactly;
    if found.Some? {
      var m := NameOf(found.value);
      assert here == {m};
      AppendShown(before, v, LedTo(v, userId, init), m);
    } else {
      assert here == {};
      assert before + [] == before && LedTo(v, userId, init) + {} == LedTo(v, userId, init);
    }
  }

  lemma {:induction false} FollowAllShows(db: Db, v: View, userId: string, keys: seq<string>)
    requires Represents(db, v) && Ascending(keys)
    requires forall k | k in keys :: UserObjectsPrefix(userId) <= k
    ensures ShowsExactly(FollowAll(db, userId, keys), v, LedTo(v, userId, keys))
  {
    hide Represents, Follow, UserObjectKey, UserObjectsPrefix, Less;
    if keys == [] {
      assert LedTo(v, userId, keys) == {};
    } else {
      var init, k := keys[..|keys| - 1], keys[|keys| - 1];
      assert keys == init + [k];
      assert forall x | x in init :: x in keys;
      FollowAllShows(db, v, userId, init);
      AscendingDistinct(keys);
      assert k !in init && k in keys;
      FollowOneShows(db, v, userId, init, k);
    }
  }

  /** The objects whose index key for this user exists, whoever made it. */
  ghost function Shown(v: View, userId: string): set<Name> {
    set n | n in v.objects && IsIndexKey(UserObjectKey(userId, n.0, n.1), v)
  }

  lemma IndexKeyStored(db: Db, v: View, userId: string, n: Name)
    requires Represents(db, v)
    ensures var k := UserObjectKey(userId, n.0, n.1);
            UserObjectsPrefix(userId) <= k && (k in db <==> IsIndexKey(k, v))
  {
    var k := UserObjectKey(userId, n.0, n.1);
    UserKeyParses(userId, n.0, n.1);
    hide UserObjectKey, ObjectKey;
    if IsObjectKey(k, v) {
      var m :| m in v.objects && k == ObjectKey(m.0, m.1);
      FamiliesApart(userId, m.0, m.1, n.0, n.1);
      assert false;
    }
  }

  /** Listing a user shows exactly these, each once. */
  lemma ListByUserShows(db: Db, v: View, userId: string)
    requires Represents(db, v)
    ensures ShowsExactly(ListByUserTxn(db, userId), v, Shown(v, userId))
  {
    hide Follow, UserObjectsPrefix, Less, ObjectKey, UserObjectKey, ShowsExactly;
    var keys := Scan(db, UserObjectsPrefix(userId));
    FollowAllShows(db, v, userId, keys);
    forall n | n in v.objects
      ensures UserObjectKey(userId, n.0, n.1) in keys <==> IsIndexKey(UserObjectKey(userId, n.0, n.1), v)
    {
      IndexKeyStored(db, v, userId, n);
    }
    assert LedTo(v, userId, keys) == Shown(v, userId);
  }

  /** The index keys of existing objects are the user's own. */
  ghost predicate Unmixed(v: View, userId: string) {
    forall e, n | e in v.index && n in v.objects && IndexKey(e) == UserObjectKey(userId, n.0, n.1) :: e == (userId, n)
  }

  /** Then the listing shows what the index records for the user. */
  lemma UnmixedShows(v: View, userId: string)
    requires Unmixed(v, userId)
    ensures Shown(v, userId) == Indexed(v, userId)
  {
    hide UserObjectKey;
    forall n | n in v.objects
      ensures n in Shown(v, userId) <==> n in Indexed(v, userId)
    {
      if n in Indexed(v, userId) {
        assert (userId, n) in v.index && IndexKey((userId, n)) == UserObjectKey(userId, n.0, n.1);
      }
    }
  }

  lemma WithinUnmixed(v: View, r: Realm, userId: string)
    requires KeysApart(r) && ViewWithin(v, r) && userId in r.users && userId != ""
    ensures Unmixed(v, userId)
  {
    hide UserObjectKey, ObjectKey;
    forall e, n | e in v.index && n in v.objects && IndexKey(e) == UserObjectKey(userId, n.0, n.1)
      ensures e == (userId, n)
    {
      assert InRealm(e, r) && InRealm((userId, n), r) && IndexKey((userId, n)) == UserObjectKey(userId, n.0, n.1);
    }
  }

  /** No index entry of an object names anyone but its owner, and none is left behind. */
  ghost predicate IndexExact(v: View) {
    forall e | e in v.index :: e.1 in v.objects && v.objects[e.1].userId == e.0
  }

  /** A listing shows one set of objects only. */
  lemma ShowsOneSet(metas: seq<ObjectMeta>, v: View, a: set<Name>, b: set<Name>)
    requires ShowsExactly(metas, v, a) && ShowsExactly(metas, v, b)
    ensures a == b
  {
    forall n
      ensures n in a <==> n in b
    {
      if n in a {
        var i :| 0 <= i < |metas| && metas[i] == v.objects[n];
        assert NameOf(metas[i]) in b;
      }
      if n in b {
        var i :| 0 <= i < |metas| && metas[i] == v.objects[n];
        assert NameOf(metas[i]) in a;
      }
    }
  }

  lemma OwnedShown(db: Db, v: View, userId: string)
    requires Represents(db, v) && userId != ""
    ensures Owned(v, userId) <= Shown(v, userId)
  {
    hide UserObjectKey, ObjectKey;
    forall n | n in Owned(v, userId)
      ensures n in Shown(v, userId)
    {
      assert (userId, n) in v.index && IndexKey((userId, n)) == UserObjectKey(userId, n.0, n.1);
    }
  }

  /** Whoever owns an object always finds it in the listing; the listing is exactly the owned objects just when no index
      key leads the user to someone else's object. */
  lemma ListByUserMeaning(db: Db, v: View, userId: string)
    requires Represents(db, v) && userId != ""
    ensures Owned(v, userId) <= Shown(v, userId)
    ensures ShowsExactly(ListByUserTxn(db, userId), v, Owned(v, userId)) <==>
            forall n | n in Shown(v, userId) :: v.objects[n].userId == userId
  {
    hide Represents, ListByUserTxn, ShowsExactly, IsIndexKey;
    OwnedShown(db, v, userId);
    ListByUserShows(db, v, userId);
    if ShowsExactly(ListByUserTxn(db, userId), v, Owned(v, userId)) {
      ShowsOneSet(ListByUserTxn(db, userId), v, Shown(v, userId), Owned(v, userId));
    }
    if forall n | n in Shown(v, userId) :: v.objects[n].userId == userId {
      assert Shown(v, userId) == Owned(v, userId);
    }
  }

  /** What a run shows from outside: every lookup and every user's listing. */
  ghost predicate Faithful(ops: seq<Op>, r: Realm) {
    var db, v := Run(ops), RunView(ops);
    && (forall n | n in r.names :: GetTxn(db, n.0, n.1) == if n in v.objects then Some(v.objects[n]) else None)
    && forall u | u in r.users && u != "" :: ShowsExactly(ListByUserTxn(db, u), v, Indexed(v, u))
  }

  lemma RunFaithful(ops: seq<Op>, r: Realm)
    requires KeysApart(r) && forall op | op in ops :: OpWithin(op, r)
    ensures Faithful(ops, r)
  {
    RunRepresents(ops, r);
    var db, v := Run(ops), RunView(ops);
    hide KeysApart, Represents, Run, RunView, GetTxn, ListByUserTxn, ShowsExactly, Indexed, Shown, Unmixed, Unaliased,
         ViewWithin;
    forall n | n in r.names
      ensures GetTxn(db, n.0, n.1) == if n in v.objects then Some(v.objects[n]) else None
    {
      assert n == (n.0, n.1);
      WithinUnaliased(v, r, n);
      GetAgrees(db, v, n.0, n.1);
    }
    forall u | u in r.users && u != ""
      ensures ShowsExactly(ListByUserTxn(db, u), v, Indexed(v, u))
    {
      WithinUnmixed(v, r, u);
      UnmixedShows(v, u);
      ListByUserShows(db, v, u);
    }
  }

  lemma TwoPuts(a: ObjectMeta, b: ObjectMeta)
    ensures Run([Put(a), Put(b)]) == PutTxn(PutTxn(map[], a), b)
    ensures RunView([Put(a), Put(b)]) == PutView(PutView(NOTHING, a), b)
  {
    var ops := [Put(a), Put(b)];
    assert ops[..1] == [Put(a)] && [Put(a)][..0] == [];
    hide PutTxn, PutView;
    assert Run([Put(a)]) == PutTxn(map[], a) && RunView([Put(a)]) == PutView(NOTHING, a);
  }

  /** Two puts under one key: the first is lost. */
  lemma SameKeyLoses(n: Name, m: Name)
    requires ObjectKey(n.0, n.1) == ObjectKey(m.0, m.1) && n != m
    ensures var ops := [Put(ObjectMeta(n.0, n.1, 0, "", None)), Put(ObjectMeta(m.0, m.1, 0, "", None))];
            n in RunView(ops).objects && GetTxn(Run(ops), n.0, n.1) != Some(RunView(ops).objects[n])
  {
    var a, b := ObjectMeta(n.0, n.1, 0, "", None), ObjectMeta(m.0, m.1, 0, "", None);
    var ops := [Put(a), Put(b)];
    assert n == (n.0, n.1) && m == (m.0, m.1);
    hide ObjectKey, UserObjectKey;
    TwoPuts(a, b);
  }

  lemma EmptyRepresents()
    ensures Represents(map[], NOTHING)
  {
  }

  lemma TwoPutsRepresent(a: ObjectMeta, b: ObjectMeta)
    requires a.userId == "" && NameOf(a) != NameOf(b) && ObjectKey(a.bucket, a.key) != ObjectKey(b.bucket, b.key)
    ensures Represents(PutTxn(PutTxn(map[], a), b), PutView(PutView(NOTHING, a), b))
  {
    hide ObjectKey, UserObjectKey, ObjectsStored, IndexStored, NothingElse, PutTxn;
    assert Represents(map[], NOTHING) by { EmptyRepresents(); }
    PutRepresents(map[], NOTHING, a);
    PutRepresents(PutTxn(map[], a), PutView(NOTHING, a), b);
  }

  lemma SameNameSameUser(u: string, v: string, n: Name)
    requires UserObjectKey(u, n.0, n.1) == UserObjectKey(v, n.0, n.1)
    ensures u == v
  {
    var tail := ":objects:" + n.0 + ":" + n.1;
    var x, y := UserObjectKey(u, n.0, n.1), UserObjectKey(v, n.0, n.1);
    assert x == "user:" + u + tail && y == "user:" + v + tail;
    assert |u| == |v|;
    assert u == x[5..5 + |u|] && v == y[5..5 + |v|];
  }

  /** An index entry of `f` that reads as one of `e`: the user of `e` is shown an object that the index does not
      record. */
  lemma SameEntryMisleads(e: (string, Name), f: (string, Name))
    requires IndexKey(e) == IndexKey(f) && e != f && e.0 != "" && f.0 != ""
    requires ObjectKey(e.1.0, e.1.1) == ObjectKey(f.1.0, f.1.1) ==> e.1 == f.1
    ensures var ops := [Put(ObjectMeta(e.1.0, e.1.1, 0, "", None)), Put(ObjectMeta(f.1.0, f.1.1, 0, f.0, None))];
            !ShowsExactly(ListByUserTxn(Run(ops), e.0), RunView(ops), Indexed(RunView(ops), e.0))
  {
    var a, b := ObjectMeta(e.1.0, e.1.1, 0, "", None), ObjectMeta(f.1.0, f.1.1, 0, f.0, None);
    var ops := [Put(a), Put(b)];
    assert e == (e.0, (e.1.0, e.1.1)) && f == (f.0, (f.1.0, f.1.1));
    if e.1 == f.1 {
      SameNameSameUser(e.0, f.0, e.1);
    }
    TwoPuts(a, b);
    TwoPutsRepresent(a, b);
    var v := RunView(ops);
    hide ObjectKey, UserObjectKey, Run, Represents, ListByUserTxn, RunView;
    ListByUserShows(Run(ops), v, e.0);
    assert f in v.index && IsIndexKey(UserObjectKey(e.0, e.1.0, e.1.1), v);
    assert e.1 in Shown(v, e.0) && e.1 !in Indexed(v, e.0);
    if ShowsExactly(ListByUserTxn(Run(ops), e.0), v, Indexed(v, e.0)) {
      ShowsOneSet(ListByUserTxn(Run(ops), e.0), v, Shown(v, e.0), Indexed(v, e.0));
    }
  }

  lemma UnfaithfulNames(r: Realm, n: Name, m: Name) returns (ops: seq<Op>)
    requires n in r.names && m in r.names && ObjectKey(n.0, n.1) == ObjectKey(m.0, m.1) && n != m
    ensures (forall op | op in ops :: OpWithin(op, r)) && !Faithful(ops, r)
  {
    assert n == (n.0, n.1) && m == (m.0, m.1);
    ops := [Put(ObjectMeta(n.0, n.1, 0, "", None)), Put(ObjectMeta(m.0, m.1, 0, "", None))];
    hide ObjectKey, Run, RunView, ListByUserTxn, GetTxn, ShowsExactly, Indexed;
    SameKeyLoses(n, m);
  }

  lemma UnfaithfulEntries(r: Realm, e: (string, Name), f: (string, Name)) returns (ops: seq<Op>)
    requires InRealm(e, r) && InRealm(f, r) && IndexKey(e) == IndexKey(f) && e != f
    requires ObjectKey(e.1.0, e.1.1) == ObjectKey(f.1.0, f.1.1) ==> e.1 == f.1
    ensures (forall op | op in ops :: OpWithin(op, r)) && !Faithful(ops, r)
  {
    assert e.1 == (e.1.0, e.1.1) && f.1 == (f.1.0, f.1.1);
    ops := [Put(ObjectMeta(e.1.0, e.1.1, 0, "", None)), Put(ObjectMeta(f.1.0, f.1.1, 0, f.0, None))];
    hide ObjectKey, IndexKey, Run, RunView, ListByUserTxn, GetTxn, ShowsExactly, Indexed;
    SameEntryMisleads(e, f);
  }

  lemma Unfaithful(r: Realm) returns (ops: seq<Op>)
    requires !KeysApart(r)
    ensures (forall op | op in ops :: OpWithin(op, r)) && !Faithful(ops, r)
  {
    hide Faithful, OpWithin, ObjectKey, IndexKey;
    if n, m :| n in r.names && m in r.names && ObjectKey(n.0, n.1) == ObjectKey(m.0, m.1) && n != m {
      ops := UnfaithfulNames(r, n, m);
    } else {
      var e: (string, Name), f: (string, Name) :|
        InRealm(e, r) && InRealm(f, r) && IndexKey(e) == IndexKey(f) && e != f;
      ops := UnfaithfulEntries(r, e, f);
    }
  }

  /** With any names and users, colons or not: all lookups and listings after all runs over them are right exactly when
      their keys are apart. */
  lemma RunsFaithfulIff(r: Realm)
    ensures (forall ops | forall op | op in ops :: OpWithin(op, r) :: Faithful(ops, r)) <==> KeysApart(r)
  {
    if KeysApart(r) {
      forall ops | forall op | op in ops :: OpWithin(op, r)
        ensures Faithful(ops, r)
      {
        RunFaithful(ops, r);
      }
    } else {
      var ops := Unfaithful(r);
      assert !Faithful(ops, r);
    }
  }

  /** The test a caller can make before a put: an existing owned object keeps its owner. */
  predicate KeepsOwner(v: View, meta: ObjectMeta) {
    NameOf(meta) in v.objects && v.objects[NameOf(meta)].userId != "" ==>
      v.objects[NameOf(meta)].userId == meta.userId
  }

  /** A put keeps the index exact exactly when it does not take an object from its owner; a delete always does. */
  lemma PutKeepsIndexExactIff(v: View, meta: ObjectMeta)
    requires PlainView(v) && IndexExact(v)
    ensures IndexExact(PutView(v, meta)) <==> KeepsOwner(v, meta)
  {
    var v', n := PutView(v, meta), NameOf(meta);
    if !KeepsOwner(v, meta) {
      assert (v.objects[n].userId, n) in v'.index;
    }
  }

  lemma DeleteKeepsIndexExact(v: View, n: Name)
    requires PlainView(v) && IndexExact(v)
    ensures IndexExact(DeleteView(v, n))
  {
  }

  /** No put of the run changes an object's owner. */
  ghost predicate OwnersKept(ops: seq<Op>) {
    forall i | 0 <= i < |ops| && ops[i].Put? :: KeepsOwner(RunView(ops[..i]), ops[i].meta)
  }

  lemma {:induction false} RunIndexExact(ops: seq<Op>, r: Realm)
    requires KeysApart(r) && (forall op | op in ops :: OpWithin(op, r)) && OwnersKept(ops)
    ensures IndexExact(RunView(ops))
  {
    if ops != [] {
      var n := |ops| - 1;
      var before := ops[..n];
      assert forall i | 0 <= i < n :: before[..i] == ops[..i];
      RunIndexExact(before, r);
      RunRepresents(before, r);
      hide KeysApart, IndexExact, PutView, DeleteView, Run, ObjectsStored, IndexStored, NothingElse;
      match ops[n]
      case Put(meta) => PutKeepsIndexExactIff(RunView(before), meta);
      case Delete(b, k) => DeleteKeepsIndexExact(RunView(before), (b, k));
    }
  }

  ghost function SizesOf(v: View, names: set<Name>): map<Name, int> {
    map n | n in names && n in v.objects :: v.objects[n].size
  }

  lemma ShownInit(metas: seq<ObjectMeta>, v: View, names: set<Name>)
    requires ShowsExactly(metas, v, names) && metas != []
    ensures ShowsExactly(metas[..|metas| - 1], v, names - {NameOf(metas[|metas| - 1])})
  {
    var k := |metas| - 1;
    var n := NameOf(metas[k]);
    forall m | m in names - {n}
      ensures v.objects[m] in metas[..k]
    {
      var i :| 0 <= i < |metas| && metas[i] == v.objects[m];
      assert i != k;
      assert metas[..k][i] == v.objects[m];
    }
  }

  /** Adding up a listing adds up each shown object once. */
  lemma {:induction false} ListingTotal(metas: seq<ObjectMeta>, v: View, names: set<Name>)
    requires ShowsExactly(metas, v, names)
    ensures TotalSize(metas) == Sum(SizesOf(v, names))
    ensures |metas| == |names|
    decreases |metas|
  {
    if metas == [] {
      assert names == {};
      assert SizesOf(v, names) == map[];
    } else {
      var k := |metas| - 1;
      var n := NameOf(metas[k]);
      assert n in names && n in v.objects && metas[k] == v.objects[n];
      ShownInit(metas, v, names);
      hide ShowsExactly, DistinctNames;
      ListingTotal(metas[..k], v, names - {n});
      SumRemove(SizesOf(v, names), n);
      assert SizesOf(v, names) - {n} == SizesOf(v, names - {n});
    }
  }

  lemma ExactOwned(v: View, userId: string)
    requires PlainView(v) && IndexExact(v) && userId != ""
    ensures Indexed(v, userId) == Owned(v, userId)
  {
    hide IndexKey;
    forall n | n in Owned(v, userId)
      ensures n in Indexed(v, userId)
    {
      assert (userId, n) in v.index;
    }
  }

  /** On runs in which no overwrite changes an owner, a user's listing is exactly the owned objects and the storage
      used is the sum of their sizes. */
  lemma UserListingExact(ops: seq<Op>, r: Realm, userId: string)
    requires KeysApart(r) && (forall op | op in ops :: OpWithin(op, r)) && OwnersKept(ops)
    requires userId in r.users && userId != ""
    ensures var v, listing := RunView(ops), ListByUserTxn(Run(ops), userId);
            && ShowsExactly(listing, v, Owned(v, userId))
            && TotalSize(listing) == Sum(SizesOf(v, Owned(v, userId)))
            && |listing| == |Owned(v, userId)|
  {
    RunRepresents(ops, r);
    RunIndexExact(ops, r);
    var v := RunView(ops);
    ListByUserShows(Run(ops), v, userId);
    WithinUnmixed(v, r, userId);
    UnmixedShows(v, userId);
    IsPlain(Run(ops), v);
    hide Represents, ListByUserTxn, KeysApart, Run, RunView, Unmixed, Shown;
    assert Indexed(v, userId) == Owned(v, userId) by { ExactOwned(v, userId); }
    ListingTotal(ListByUserTxn(Run(ops), userId), v, Owned(v, userId));
  }

  // ---- Listing a bucket and the expired objects ----

  ghost function RecordNames(v: View, keys: seq<string>, expiredAt: Option<int>): set<Name> {
    set n | n in v.objects && ObjectKey(n.0, n.1) in keys &&
            (expiredAt.Some? ==> Expired(v.objects[n], expiredAt.value))
  }

  lemma RecordNamesStep(v: View, init: seq<string>, k: string, expiredAt: Option<int>, m: Name)
    requires m in v.objects && Unaliased(v, m) && k == ObjectKey(m.0, m.1) && k !in init
    ensures m !in RecordNames(v, init, expiredAt)
    ensures RecordNames(v, init + [k], expiredAt) ==
            if expiredAt.Some? ==> Expired(v.objects[m], expiredAt.value)
            then RecordNames(v, init, expiredAt) + {m} else RecordNames(v, init, expiredAt)
  {
    hide ObjectKey, Expired;
  }

  lemma RecordsSnoc(db: Db, init: seq<string>, k: string, expiredAt: Option<int>)
    ensures Records(db, init + [k], expiredAt) ==
            Records(db, init, expiredAt) +
            if k in db && db[k].Object? && (expiredAt.Some? ==> Expired(db[k].meta, expiredAt.value))
      then [db[k].meta] else []
  {
    assert (init + [k])[..|init|] == init;
  }

  lemma RecordShows(db: Db, v: View, init: seq<string>, k: string, expiredAt: Option<int>)
    requires Represents(db, v) && k in db && k !in init
    requires ShowsExactly(Records(db, init, expiredAt), v, RecordNames(v, init, expiredAt))
    ensures ShowsExactly(Records(db, init + [k], expiredAt), v, RecordNames(v, init + [k], expiredAt))
  {
    hide ObjectKey, UserObjectKey, Expired, ShowsExactly, Records;
    RecordsSnoc(db, init, k, expiredAt);
    var before := Records(db, init, expiredAt);
    assert before + [] == before;
    if IsObjectKey(k, v) {
      var m :| m in v.objects && k == ObjectKey(m.0, m.1);
      StoredUnaliased(db, v, m);
      IsPlain(db, v);
      assert db[k] == Object(v.objects[m]);
      hide Represents, Unaliased, RecordNames;
      RecordNamesStep(v, init, k, expiredAt, m);
      if expiredAt.Some? ==> Expired(v.objects[m], expiredAt.value) {
        AppendShown(before, v, RecordNames(v, init, expiredAt), m);
      }
    } else {
      assert forall n | n in v.objects :: ObjectKey(n.0, n.1) != k;
      assert RecordNames(v, init + [k], expiredAt) == RecordNames(v, init, expiredAt);
    }
  }

  lemma {:induction false} RecordsShow(db: Db, v: View, keys: seq<string>, expiredAt: Option<int>)
    requires Represents(db, v) && Ascending(keys) && forall k | k in keys :: k in db
    ensures ShowsExactly(Records(db, keys, expiredAt), v, RecordNames(v, keys, expiredAt))
  {
    if keys == [] {
      assert RecordNames(v, keys, expiredAt) == {};
      NothingShown(v);
    } else {
      hide Represents, Less, ShowsExactly, Records, RecordNames;
      var init, k := keys[..|keys| - 1], keys[|keys| - 1];
      assert keys == init + [k];
      assert forall x | x in init :: x in keys;
      RecordsShow(db, v, init, expiredAt);
      AscendingDistinct(keys);
      RecordShows(db, v, init, k, expiredAt);
    }
  }

  ghost function UnderPrefix(v: View, bucket: string): set<Name> {
    set n | n in v.objects && BucketPrefix(bucket) <= ObjectKey(n.0, n.1)
  }

  ghost function InBucket(v: View, bucket: string): set<Name> {
    set n | n in v.objects && n.0 == bucket
  }

  lemma OnlyOwnUnderPrefix(v: View, bucket: string)
    ensures UnderPrefix(v, bucket) == InBucket(v, bucket) <==> forall n | n in UnderPrefix(v, bucket) :: n.0 == bucket
  {
    hide ObjectKey, BucketPrefix;
    BucketScanIff(bucket, bucket);
    assert forall n | n in InBucket(v, bucket) :: n in UnderPrefix(v, bucket);
  }

  lemma ScannedNames(db: Db, v: View, bucket: string)
    requires Represents(db, v)
    ensures RecordNames(v, Scan(db, BucketPrefix(bucket)), None) == UnderPrefix(v, bucket)
  {
    hide ObjectKey, BucketPrefix, IndexKey;
  }

  lemma BucketListing(db: Db, v: View, bucket: string)
    requires Represents(db, v)
    ensures ShowsExactly(Records(db, Scan(db, BucketPrefix(bucket)), None), v, UnderPrefix(v, bucket))
  {
    ScannedNames(db, v, bucket);
    RecordsShow(db, v, Scan(db, BucketPrefix(bucket)), None);
  }

  /** A bucket's listing shows exactly the objects under its prefix, each once; these are the bucket's own exactly
      when no object of another bucket stands under that prefix, as without colons. */
  lemma ListByBucketShows(db: Db, v: View, bucket: string)
    requires Represents(db, v)
    ensures var listing := Records(db, Scan(db, BucketPrefix(bucket)), None);
            && ShowsExactly(listing, v, UnderPrefix(v, bucket))
            && (ShowsExactly(listing, v, InBucket(v, bucket)) <==>
                  forall n | n in UnderPrefix(v, bucket) :: n.0 == bucket)
  {
    BucketListing(db, v, bucket);
    OnlyOwnUnderPrefix(v, bucket);
    hide *;
    if ShowsExactly(Records(db, Scan(db, BucketPrefix(bucket)), None), v, InBucket(v, bucket)) {
      ShowsOneSet(Records(db, Scan(db, BucketPrefix(bucket)), None), v, UnderPrefix(v, bucket), InBucket(v, bucket));
    }
  }

  /** The expired listing shows exactly the objects whose time has passed, each once. */
  lemma ListExpiredShows(db: Db, v: View, now: int)
    requires Represents(db, v)
    ensures ShowsExactly(Records(db, Scan(db, "object:"), Some(now)), v,
                         set n | n in v.objects && v.objects[n].expiresAt.Some? && v.objects[n].expiresAt.value < now)
  {
    var keys := Scan(db, "object:");
    RecordsShow(db, v, keys, Some(now));
    forall n | n in v.objects
      ensures ObjectKey(n.0, n.1) in keys
    {
      FamiliesApart("", n.0, n.1, n.0, n.1);
    }
    assert RecordNames(v, keys, Some(now)) ==
           set n | n in v.objects && v.objects[n].expiresAt.Some? && v.objects[n].expiresAt.value < now;
  }

  // ---- The store ----

  class Store {
    var db: Db

    constructor ()
      ensures db == map[] && Represents(db, NOTHING)
    {
      db := map[];
    }

    method Put(meta: ObjectMeta)
      modifies this
      ensures db == PutTxn(old(db), meta)
      ensures forall v | old(Represents(db, v)) && Unaliased(v, NameOf(meta)) && PlainView(PutView(v, meta)) ::
                Represents(db, PutView(v, meta))
    {
      forall v | Represents(db, v) && Unaliased(v, NameOf(meta)) && PlainView(PutView(v, meta))
        ensures Represents(PutTxn(db, meta), PutView(v, meta))
      {
        PutRepresents(db, v, meta);
      }
      hide Represents, PlainView, Unaliased;
      db := db[ObjectKey(meta.bucket, meta.key) := Object(meta)];
      if meta.userId != "" {
        db := db[UserObjectKey(meta.userId, meta.bucket, meta.key) := IndexEntry];
      }
    }

    method Get(bucket: string, key: string) returns (meta: Option<ObjectMeta>)
      ensures meta == GetTxn(db, bucket, key)
      ensures forall v | Represents(db, v) && Unaliased(v, (bucket, key)) ::
                meta == if (bucket, key) in v.objects then Some(v.objects[(bucket, key)]) else None
    {
      forall v | Represents(db, v) && Unaliased(v, (bucket, key))
        ensures GetTxn(db, bucket, key) == if (bucket, key) in v.objects then Some(v.objects[(bucket, key)]) else None
      {
        GetAgrees(db, v, bucket, key);
      }
      hide Represents, Unaliased;
      var k := ObjectKey(bucket, key);
      if k !in db || !db[k].Object? {
        return None;
      }
      return Some(db[k].meta);
    }

    method Delete(bucket: string, key: string) returns (ok: bool)
      modifies this
      ensures db == DeleteTxn(old(db), bucket, key)
      ensures ok <==> GetTxn(old(db), bucket, key).Some?
      ensures forall v | old(Represents(db, v)) && Unaliased(v, (bucket, key)) ::
                Represents(db, DeleteView(v, (bucket, key)))
    {
      forall v | Represents(db, v) && Unaliased(v, (bucket, key))
        ensures Represents(DeleteTxn(db, bucket, key), DeleteView(v, (bucket, key)))
      {
        DeleteRepresents(db, v, bucket, key);
      }
      hide Represents, Unaliased;
      var meta := Get(bucket, key);
      if meta.None? {
        return false;
      }
      db := db - {ObjectKey(bucket, key)};
      if meta.value.userId != "" {
        db := db - {UserObjectKey(meta.value.userId, bucket, key)};
      }
      return true;
    }

    method ListByUser(userId: string) returns (metas: seq<ObjectMeta>)
      ensures metas == ListByUserTxn(db, userId)
    {
      hide Represents, GetTxn, UserObjectsPrefix, SplitTwo, TrimPrefix, Scan;
      var prefix := UserObjectsPrefix(userId);
      var keys := Scan(db, prefix);
      metas := [];
      for i := 0 to |keys|
        invariant metas == FollowAll(db, userId, keys[..i])
      {
        assert keys[..i + 1][..i] == keys[..i];
        var parts := SplitTwo(TrimPrefix(keys[i], prefix), ':');
        if |parts| != 2 {
          continue;
        }
        var found := Get(parts[0], parts[1]);
        if found.None? {
          continue;
        }
        metas := metas + [found.value];
      }
      assert keys[..|keys|] == keys;
    }

    method GetUserStorageUsed(userId: string) returns (total: int)
      ensures total == TotalSize(ListByUserTxn(db, userId))
    {
      var metas := ListByUser(userId);
      total := 0;
      for i := 0 to |metas|
        invariant total == TotalSize(metas[..i])
      {
        assert metas[..i + 1][..i] == metas[..i];
        total := total + metas[i].size;
      }
      assert metas[..|metas|] == metas;
    }

    method ListByBucket(bucket: string) returns (metas: seq<ObjectMeta>)
      ensures metas == Records(db, Scan(db, BucketPrefix(bucket)), None)
    {
      var keys := Scan(db, BucketPrefix(bucket));
      metas := [];
      for i := 0 to |keys|
        invariant metas == Records(db, keys[..i], None)
      {
        assert keys[..i + 1][..i] == keys[..i] && keys[i] in keys;
        if db[keys[i]].Object? {
          metas := metas + [db[keys[i]].meta];
        }
      }
      assert keys[..|keys|] == keys;
    }

    method ListExpired(now: int) returns (metas: seq<ObjectMeta>)
      ensures metas == Records(db, Scan(db, "object:"), Some(now))
      ensures forall v | Represents(db, v) :: ShowsExactly(metas, v,
                set n | n in v.objects && v.objects[n].expiresAt.Some? && v.objects[n].expiresAt.value < now)
    {
      forall v | Represents(db, v)
        ensures ShowsExactly(Records(db, Scan(db, "object:"), Some(now)), v,
                  set n | n in v.objects && v.objects[n].expiresAt.Some? && v.objects[n].expiresAt.value < now)
      {
        ListExpiredShows(db, v, now);
      }
      hide ShowsExactly, Represents, ObjectsStored, IndexStored, NothingElse;
      var keys := Scan(db, "object:");
      metas := [];
      for i := 0 to |keys|
        invariant metas == Records(db, keys[..i], Some(now))
      {
        assert keys[..i + 1][..i] == keys[..i] && keys[i] in keys;
        if db[keys[i]].Object? {
          var meta := db[keys[i]].meta;
          if meta.expiresAt.Some? && meta.expiresAt.value < now {
            metas := metas + [meta];
          }
        }
      }
      assert keys[..|keys|] == keys;
    }
  }
}
