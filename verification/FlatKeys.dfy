/** The flat key spaces: how bucket names, user ids and object keys are packed into one Badger key, and
    when the packing can be undone. */
module FlatKeys {
  import opened Text

  predicate ColonFree(s: string) {
    ':' !in s
  }

  function BlobKey(hash: string): string {
    "blob:" + hash
  }

  function RefKey(bucket: string, key: string): string {
    "ref:" + bucket + ":" + key
  }

  function ObjectKey(bucket: string, key: string): string {
    "object:" + bucket + ":" + key
  }

  function BucketPrefix(bucket: string): string {
    "object:" + bucket + ":"
  }

  function UserObjectsPrefix(userId: string): string {
    "user:" + userId + ":objects:"
  }

  function UserObjectKey(userId: string, bucket: string, key: string): string {
    "user:" + userId + ":objects:" + bucket + ":" + key
  }

  /** A packed pair names the text after its tag, nothing more and nothing less. */
  lemma PackedPairs(tag: string, b: string, k: string, c: string, l: string)
    ensures tag + b + ":" + k == tag + c + ":" + l <==> b + ":" + k == c + ":" + l
    ensures ColonFree(b) && ColonFree(c) ==>
              (tag + b + ":" + k == tag + c + ":" + l <==> b == c && k == l)
  {
    var x, y := b + ":" + k, c + ":" + l;
    assert tag + b + ":" + k == tag + x && tag + c + ":" + l == tag + y;
    assert (tag + x)[|tag|..] == x && (tag + y)[|tag|..] == y;
    if ColonFree(b) && ColonFree(c) && x == y {
      FirstCutUnique(b, k, c, l, ':');
    }
  }

  /** References of colon-free buckets are named apart, and no reference key is a blob key. */
  lemma RefKeysApart(b: string, k: string, c: string, l: string, hash: string)
    ensures RefKey(b, k) == RefKey(c, l) <==> b + ":" + k == c + ":" + l
    ensures ColonFree(b) && ColonFree(c) ==> (RefKey(b, k) == RefKey(c, l) <==> b == c && k == l)
    ensures RefKey(b, k) != BlobKey(hash)
  {
    PackedPairs("ref:", b, k, c, l);
    assert RefKey(b, k)[0] == 'r' && BlobKey(hash)[0] == 'b';
  }

  lemma ObjectKeysApart(b: string, k: string, c: string, l: string)
    ensures ObjectKey(b, k) == ObjectKey(c, l) <==> b + ":" + k == c + ":" + l
    ensures ColonFree(b) && ColonFree(c) ==> (ObjectKey(b, k) == ObjectKey(c, l) <==> b == c && k == l)
  {
    PackedPairs("object:", b, k, c, l);
  }

  lemma PrefixCut(a: string, x: string, b: string, y: string, sep: char)
    requires sep !in a && sep !in b
    ensures a + [sep] + x <= b + [sep] + y <==> a == b && x <= y
  {
    var s, t := a + [sep] + x, b + [sep] + y;
    if s <= t {
      var rest := t[|s|..];
      assert t == a + [sep] + (x + rest);
      FirstCutUnique(a, x + rest, b, y, sep);
    }
    if a == b && x <= y {
      assert t == s + y[|x|..];
    }
  }

  lemma SharedTag(tag: string, x: string, y: string)
    ensures tag + x <= tag + y <==> x <= y
  {
    if tag + x <= tag + y {
      assert x == (tag + x)[|tag|..] && y == (tag + y)[|tag|..];
      assert y[..|x|] == (tag + y)[|tag|..|tag| + |x|];
    }
    if x <= y {
      assert tag + y == tag + x + y[|x|..];
    }
  }

  // ---- Which names meet in the key space ----

  /** `b` is `c`, or the beginning of `c` up to one of its colons. */
  predicate Within(b: string, c: string) {
    b + ":" <= c + ":"
  }

  lemma PrefixOfSum(p: string, q: string, x: string)
    ensures p <= q + x ==> p <= q || q <= p
    ensures p <= q ==> p <= q + x
  {
    if p <= q + x && |q| <= |p| {
      assert p[..|q|] == (q + x)[..|q|] == q;
    }
    if p <= q {
      assert (q + x)[..|p|] == q[..|p|];
    }
  }

  /** Neither part is empty, as in every request for an object. */
  predicate Proper(bucket: string, key: string) {
    bucket != "" && key != ""
  }

  /** What begins two continuations of a text that differ at once begins the text. */
  lemma CommonBeginning(p: string, q: string, x: string, y: string)
    requires p <= q + x && p <= q + y && x != "" && y != "" && x[0] != y[0]
    ensures p <= q
  {
    var s, t := q + x, q + y;
    assert s[|q|] != t[|q|];
    assert p == s[..|p|] == t[..|p|];
    assert |p| <= |q|;
    assert s[..|p|] == q[..|p|];
  }

  /** Bucket names without colons lie within each other only when they are equal. */
  lemma ColonFreeWithin(b: string, c: string)
    requires ColonFree(c)
    ensures Within(b, c) <==> b == c
  {
    if |b| < |c| {
      assert (b + ":")[|b|] == ':' && (c + ":")[|b|] == c[|b|] != ':';
    }
    if Within(b, c) && |b| == |c| {
      assert b == (b + ":")[..|b|] == (c + ":")[..|b|] == c;
    }
  }

  /** Two buckets can share an object key, a reference key or an index key of one user exactly when one lies within
      the other. */
  lemma BucketsCollideIff(u: string, b: string, c: string)
    ensures (exists k, l :: k != "" && l != "" && ObjectKey(b, k) == ObjectKey(c, l)) <==> Within(b, c) || Within(c, b)
    ensures (exists k, l :: k != "" && l != "" && RefKey(b, k) == RefKey(c, l)) <==> Within(b, c) || Within(c, b)
    ensures (exists k, l :: k != "" && l != "" && UserObjectKey(u, b, k) == UserObjectKey(u, c, l)) <==>
            Within(b, c) || Within(c, b)
  {
    forall k, l
      ensures b + ":" + k == c + ":" + l ==> Within(b, c) || Within(c, b)
      ensures ObjectKey(b, k) == ObjectKey(c, l) <==> b + ":" + k == c + ":" + l
      ensures RefKey(b, k) == RefKey(c, l) <==> b + ":" + k == c + ":" + l
      ensures UserObjectKey(u, b, k) == UserObjectKey(u, c, l) <==> b + ":" + k == c + ":" + l
    {
      PrefixOfSum(b + ":", c + ":", l);
      PackedPairs(UserObjectsPrefix(u), b, k, c, l);
      PackedPairs("object:", b, k, c, l);
      PackedPairs("ref:", b, k, c, l);
    }
    if Within(b, c) {
      var rest := (c + ":")[|b + ":"|..] + "x";
      assert b + ":" + rest == c + ":" + "x";
      assert ObjectKey(b, rest) == ObjectKey(c, "x") && RefKey(b, rest) == RefKey(c, "x");
      assert UserObjectKey(u, b, rest) == UserObjectKey(u, c, "x");
    }
    if Within(c, b) {
      var rest := (b + ":")[|c + ":"|..] + "x";
      assert b + ":" + "x" == c + ":" + rest;
      assert ObjectKey(b, "x") == ObjectKey(c, rest) && RefKey(b, "x") == RefKey(c, rest);
      assert UserObjectKey(u, b, "x") == UserObjectKey(u, c, rest);
    }
  }

  /** A bucket scan can meet another bucket's objects exactly when one name lies within the other, and meets all of
      them exactly when the scanned name lies within the other. Without colons it meets exactly the bucket's own. */
  lemma BucketScanIff(b: string, c: string)
    ensures (exists k :: k != "" && BucketPrefix(b) <= ObjectKey(c, k)) <==> Within(b, c) || Within(c, b)
    ensures (forall k | k != "" :: BucketPrefix(b) <= ObjectKey(c, k)) <==> Within(b, c)
    ensures Within(b, c) ==> forall k :: BucketPrefix(b) <= ObjectKey(c, k)
    ensures ColonFree(b) && ColonFree(c) ==> forall k :: BucketPrefix(b) <= ObjectKey(c, k) <==> b == c
  {
    forall k
      ensures BucketPrefix(b) <= ObjectKey(c, k) <==> b + ":" <= c + ":" + k
      ensures BucketPrefix(b) <= ObjectKey(c, k) ==> Within(b, c) || Within(c, b)
      ensures Within(b, c) ==> BucketPrefix(b) <= ObjectKey(c, k)
    {
      assert BucketPrefix(b) == "object:" + (b + ":") && ObjectKey(c, k) == "object:" + (c + ":" + k);
      SharedTag("object:", b + ":", c + ":" + k);
      PrefixOfSum(b + ":", c + ":", k);
    }
    if Within(b, c) {
      assert BucketPrefix(b) <= ObjectKey(c, "x");
    }
    if Within(c, b) {
      var rest := (b + ":")[|c + ":"|..];
      assert c + ":" + (rest + "x") == b + ":" + "x";
      assert BucketPrefix(b) <= ObjectKey(c, rest + "x");
    }
    if forall k | k != "" :: BucketPrefix(b) <= ObjectKey(c, k) {
      assert BucketPrefix(b) <= ObjectKey(c, "x") && BucketPrefix(b) <= ObjectKey(c, "y");
      CommonBeginning(b + ":", c + ":", "x", "y");
    }
    if ColonFree(b) && ColonFree(c) {
      ColonFreeWithin(b, c);
      ColonFreeWithin(c, b);
    }
  }

  lemma EntryMet(u: string, v: string, b: string, k: string)
    ensures UserObjectsPrefix(u) <= UserObjectKey(v, b, k) ==>
              UserObjectsPrefix(u) <= UserObjectsPrefix(v) || UserObjectsPrefix(v) <= UserObjectsPrefix(u)
    ensures UserObjectsPrefix(u) <= UserObjectsPrefix(v) ==> UserObjectsPrefix(u) <= UserObjectKey(v, b, k)
  {
    assert UserObjectKey(v, b, k) == UserObjectsPrefix(v) + (b + ":" + k);
    PrefixOfSum(UserObjectsPrefix(u), UserObjectsPrefix(v), b + ":" + k);
  }

  lemma SomeEntryMet(u: string, v: string) returns (b: string)
    requires UserObjectsPrefix(v) <= UserObjectsPrefix(u)
    ensures Proper(b, "x") && UserObjectsPrefix(u) <= UserObjectKey(v, b, "x")
  {
    var p, q := UserObjectsPrefix(u), UserObjectsPrefix(v);
    b := p[|q|..] + "x";
    assert UserObjectKey(v, b, "x") == q + (b + ":x");
    assert p == q + p[|q|..];
    assert q + (b + ":x") == p + "x:x";
  }

  lemma AllEntriesMet(u: string, v: string)
    requires UserObjectsPrefix(u) <= UserObjectKey(v, "x", "x") && UserObjectsPrefix(u) <= UserObjectKey(v, "y", "x")
    ensures UserObjectsPrefix(u) <= UserObjectsPrefix(v)
  {
    assert UserObjectKey(v, "x", "x") == UserObjectsPrefix(v) + "x:x";
    assert UserObjectKey(v, "y", "x") == UserObjectsPrefix(v) + "y:x";
    CommonBeginning(UserObjectsPrefix(u), UserObjectsPrefix(v), "x:x", "y:x");
  }

  /** A user scan can meet another user's index entries exactly when one of the two prefixes begins the other, and meets
      all of them exactly when the scanned prefix begins the other. */
  lemma UserScanIff(u: string, v: string)
    ensures (exists b, k :: Proper(b, k) && UserObjectsPrefix(u) <= UserObjectKey(v, b, k)) <==>
            UserObjectsPrefix(u) <= UserObjectsPrefix(v) || UserObjectsPrefix(v) <= UserObjectsPrefix(u)
    ensures (forall b, k | Proper(b, k) :: UserObjectsPrefix(u) <= UserObjectKey(v, b, k)) <==>
            UserObjectsPrefix(u) <= UserObjectsPrefix(v)
  {
    forall b, k
      ensures UserObjectsPrefix(u) <= UserObjectKey(v, b, k) ==>
                UserObjectsPrefix(u) <= UserObjectsPrefix(v) || UserObjectsPrefix(v) <= UserObjectsPrefix(u)
      ensures UserObjectsPrefix(u) <= UserObjectsPrefix(v) ==> UserObjectsPrefix(u) <= UserObjectKey(v, b, k)
    {
      EntryMet(u, v, b, k);
    }
    hide UserObjectsPrefix, UserObjectKey;
    assert Proper("x", "x") && Proper("y", "x");
    if UserObjectsPrefix(u) <= UserObjectsPrefix(v) {
      assert UserObjectsPrefix(u) <= UserObjectKey(v, "x", "x");
    }
    if UserObjectsPrefix(v) <= UserObjectsPrefix(u) {
      var b := SomeEntryMet(u, v);
    }
    if forall b, k | Proper(b, k) :: UserObjectsPrefix(u) <= UserObjectKey(v, b, k) {
      AllEntriesMet(u, v);
    }
  }

  lemma SharedEntry(u: string, v: string) returns (b: string)
    requires UserObjectsPrefix(u) <= UserObjectsPrefix(v)
    ensures Proper(b, "x") && UserObjectKey(u, b, "x") == UserObjectKey(v, "x", "x")
  {
    var p, q := UserObjectsPrefix(u), UserObjectsPrefix(v);
    b := q[|p|..] + "x";
    assert UserObjectKey(u, b, "x") == p + (b + ":x");
    assert UserObjectKey(v, "x", "x") == q + "x:x";
    assert q == p + q[|p|..];
  }

  /** Two users can share an index key under the same condition. */
  lemma UserEntriesCollideIff(u: string, v: string)
    ensures (exists b, k, c, l :: Proper(b, k) && Proper(c, l) && UserObjectKey(u, b, k) == UserObjectKey(v, c, l)) <==>
            UserObjectsPrefix(u) <= UserObjectsPrefix(v) || UserObjectsPrefix(v) <= UserObjectsPrefix(u)
  {
    var p, q := UserObjectsPrefix(u), UserObjectsPrefix(v);
    forall b, k, c, l
      ensures UserObjectKey(u, b, k) == UserObjectKey(v, c, l) ==> p <= q || q <= p
    {
      assert UserObjectKey(u, b, k) == p + (b + ":" + k) && UserObjectKey(v, c, l) == q + (c + ":" + l);
      PrefixOfSum(p, q, c + ":" + l);
    }
    assert Proper("x", "x");
    if p <= q {
      var b := SharedEntry(u, v);
      assert Proper(b, "x") && UserObjectKey(u, b, "x") == UserObjectKey(v, "x", "x");
    }
    if q <= p {
      var b := SharedEntry(v, u);
      assert Proper(b, "x") && UserObjectKey(u, "x", "x") == UserObjectKey(v, b, "x");
    }
  }

  /** So the scan of any user meets all entries of the users whose ids continue with the separator. */
  lemma ColonUserLeaks(u: string, x: string)
    ensures forall b, k | Proper(b, k) :: UserObjectsPrefix(u) <= UserObjectKey(u + ":objects:" + x, b, k)
  {
    assert UserObjectsPrefix(u + ":objects:" + x) == UserObjectsPrefix(u) + (x + ":objects:");
    UserScanIff(u, u + ":objects:" + x);
  }

  /** A user scan meets no object record, and without colons exactly that user's index entries. */
  lemma UserScan(u: string, v: string, b: string, k: string)
    ensures ColonFree(u) && ColonFree(v) ==> (UserObjectsPrefix(u) <= UserObjectKey(v, b, k) <==> u == v)
    ensures !(UserObjectsPrefix(u) <= ObjectKey(b, k))
  {
    var tail := "objects:" + (b + ":" + k);
    assert UserObjectsPrefix(u) == "user:" + (u + ":" + "objects:");
    assert UserObjectKey(v, b, k) == "user:" + (v + ":" + tail);
    SharedTag("user:", u + ":" + "objects:", v + ":" + tail);
    if ColonFree(u) && ColonFree(v) {
      PrefixCut(u, "objects:", v, tail, ':');
    }
    assert UserObjectsPrefix(u)[0] == 'u' && ObjectKey(b, k)[0] == 'o';
  }

  /** The parse in the user listing undoes the packing exactly for buckets without colons; the object key may contain
      them. */
  lemma UserKeyParses(u: string, b: string, k: string)
    ensures UserObjectsPrefix(u) <= UserObjectKey(u, b, k)
    ensures SplitTwo(TrimPrefix(UserObjectKey(u, b, k), UserObjectsPrefix(u)), ':') == [b, k] <==> ColonFree(b)
  {
    var rest := b + ":" + k;
    assert UserObjectKey(u, b, k) == UserObjectsPrefix(u) + rest;
    assert UserObjectKey(u, b, k)[|UserObjectsPrefix(u)|..] == rest;
    if ColonFree(b) {
      SplitTwoInverts(b, ':', k);
    } else {
      assert ':' !in SplitTwo(rest, ':')[0] || |SplitTwo(rest, ':')| != 2;
    }
  }

  /** Index keys of one user meet only where bucket and key agree as a text; without colons, index keys are
      injective. */
  lemma UserKeysApart(u: string, b: string, k: string, v: string, c: string, l: string)
    ensures UserObjectKey(u, b, k) == UserObjectKey(u, c, l) <==> b + ":" + k == c + ":" + l
    ensures ColonFree(u) && ColonFree(v) && ColonFree(b) && ColonFree(c) ==>
              (UserObjectKey(u, b, k) == UserObjectKey(v, c, l) <==> u == v && b == c && k == l)
  {
    PackedPairs(UserObjectsPrefix(u), b, k, c, l);
    if ColonFree(u) && ColonFree(v) && ColonFree(b) && ColonFree(c) &&
       UserObjectKey(u, b, k) == UserObjectKey(v, c, l) {
      UserKeyParses(u, b, k);
      UserScan(u, v, c, l);
      UserKeyParses(v, c, l);
      assert [b, k] == [c, l];
      assert b == [b, k][0] == [c, l][0] && k == [b, k][1] == [c, l][1];
    }
  }

  /** The two record families of the metadata store never meet. */
  lemma FamiliesApart(u: string, b: string, k: string, c: string, l: string)
    ensures ObjectKey(b, k) != UserObjectKey(u, c, l)
    ensures "object:" <= ObjectKey(b, k)
    ensures !("object:" <= UserObjectKey(u, c, l))
    ensures !(BucketPrefix(b) <= UserObjectKey(u, c, l))
  {
    assert ObjectKey(b, k)[0] == 'o' && UserObjectKey(u, c, l)[0] == 'u';
    assert ObjectKey(b, k) == "object:" + (b + ":" + k);
    assert BucketPrefix(b)[0] == 'o';
  }
}
