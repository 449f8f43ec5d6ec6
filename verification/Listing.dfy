/** Listing a bucket: prefix filter, delimiter grouping and marker pagination, and what a client sees that
    follows the markers to the end. */
module Listing {
  import opened Prelude
  import opened Text

  datatype Object = Object(key: string, size: nat)

  datatype Request = Request(prefix: string, delimiter: string, marker: string, maxKeys: int)

  datatype Page = Page(objects: seq<Object>, commonPrefixes: seq<string>, truncated: bool, nextMarker: string)

  /** A directory walk in whatever order: every key once, and file names are not empty. */
  ghost predicate ValidWalk(walk: seq<Object>) {
    && (forall i | 0 <= i < |walk| :: walk[i].key != "")
    && forall i, j | 0 <= i < j < |walk| :: walk[i].key != walk[j].key
  }

  ghost predicate KeySorted(objects: seq<Object>) {
    forall i, j | 0 <= i < j < |objects| :: Less(objects[i].key, objects[j].key)
  }

  function ClampMaxKeys(raw: int): (n: int)
    ensures n == if raw <= 0 then 1000 else if raw > 10000 then 10000 else raw
  {
    if raw <= 0 then 1000 else if raw > 10000 then 10000 else raw
  }

  // ---- Filters and sorting ----

  function Matching(walk: seq<Object>, prefix: string): seq<Object> {
    if walk == [] then [] else
      var last := walk[|walk| - 1];
      Matching(walk[..|walk| - 1], prefix) + if prefix <= last.key then [last] else []
  }

  /** The objects whose key is above the marker. */
  function Above(objects: seq<Object>, marker: string): seq<Object> {
    if objects == [] then [] else
      var last := objects[|objects| - 1];
      Above(objects[..|objects| - 1], marker) + if Less(marker, last.key) then [last] else []
  }

  lemma {:induction false} MatchingMembers(walk: seq<Object>, prefix: string, o: Object)
    ensures o in Matching(walk, prefix) <==> o in walk && prefix <= o.key
  {
    if walk != [] {
      MatchingMembers(walk[..|walk| - 1], prefix, o);
      assert walk == walk[..|walk| - 1] + [walk[|walk| - 1]];
    }
  }

  lemma {:induction false} AboveMembers(objects: seq<Object>, marker: string, o: Object)
    ensures o in Above(objects, marker) <==> o in objects && Less(marker, o.key)
  {
    if objects != [] {
      AboveMembers(objects[..|objects| - 1], marker, o);
      assert objects == objects[..|objects| - 1] + [objects[|objects| - 1]];
    }
  }

  function InsertByKey(o: Object, sorted: seq<Object>): (r: seq<Object>)
    ensures multiset(r) == multiset(sorted) + multiset{o}
  {
    if sorted == [] || Less(o.key, sorted[0].key) then
      assert multiset([o] + sorted) == multiset{o} + multiset(sorted);
      [o] + sorted
    else
      assert sorted == [sorted[0]] + sorted[1..];
      [sorted[0]] + InsertByKey(o, sorted[1..])
  }

  /** The library sort by key. Keys are distinct, so there is only one sorted order. */
  function SortByKey(objects: seq<Object>): (r: seq<Object>)
    ensures multiset(r) == multiset(objects)
  {
    if objects == [] then [] else
      assert objects == objects[..|objects| - 1] + [objects[|objects| - 1]];
      InsertByKey(objects[|objects| - 1], SortByKey(objects[..|objects| - 1]))
  }

  lemma {:induction false} InsertSorted(o: Object, sorted: seq<Object>)
    requires KeySorted(sorted) && forall i | 0 <= i < |sorted| :: sorted[i].key != o.key
    ensures KeySorted(InsertByKey(o, sorted))
  {
    hide Less;
    if sorted != [] {
      LessTotal(o.key, sorted[0].key);
      if Less(o.key, sorted[0].key) {
        forall i | 0 < i < |sorted|
          ensures Less(o.key, sorted[i].key)
        {
          LessTransitive(o.key, sorted[0].key, sorted[i].key);
        }
      } else {
        InsertSorted(o, sorted[1..]);
        var rest := InsertByKey(o, sorted[1..]);
        forall i | 0 <= i < |rest|
          ensures Less(sorted[0].key, rest[i].key)
        {
          assert rest[i] in multiset(rest);
          assert rest[i] == o || rest[i] in sorted[1..];
        }
      }
    }
  }

  lemma {:induction false} SortSorts(objects: seq<Object>)
    requires forall i, j | 0 <= i < j < |objects| :: objects[i].key != objects[j].key
    ensures KeySorted(SortByKey(objects))
    ensures forall o :: o in SortByKey(objects) <==> o in objects
  {
    if objects != [] {
      var n := |objects| - 1;
      SortSorts(objects[..n]);
      var earlier := SortByKey(objects[..n]);
      forall i | 0 <= i < |earlier|
        ensures earlier[i].key != objects[n].key
      {
        assert earlier[i] in earlier;
        assert earlier[i] in objects[..n];
      }
      InsertSorted(objects[n], earlier);
    }
    forall o
      ensures o in SortByKey(objects) <==> o in objects
    {
      assert o in SortByKey(objects) <==> o in multiset(SortByKey(objects));
      assert o in objects <==> o in multiset(objects);
    }
  }

  lemma ValidWalkAppend(kept: seq<Object>, o: Object)
    requires ValidWalk(kept) && o.key != "" && forall i | 0 <= i < |kept| :: kept[i].key != o.key
    ensures ValidWalk(kept + [o])
  {
  }

  lemma {:induction false} MatchingDistinct(walk: seq<Object>, prefix: string)
    requires ValidWalk(walk)
    ensures ValidWalk(Matching(walk, prefix))
  {
    if walk != [] {
      var init, last := walk[..|walk| - 1], walk[|walk| - 1];
      MatchingDistinct(init, prefix);
      var kept := Matching(init, prefix);
      forall i | 0 <= i < |kept|
        ensures kept[i].key != last.key
      {
        MatchingMembers(init, prefix, kept[i]);
        assert kept[i] in kept;
      }
      ValidWalkAppend(kept, last);
      hide ValidWalk;
      assert Matching(walk, prefix) == kept || Matching(walk, prefix) == kept + [last];
    }
  }

  /** What the handler works on: the matching objects in key order. */
  function Sorted(walk: seq<Object>, prefix: string): seq<Object> {
    SortByKey(Matching(walk, prefix))
  }

  lemma SortedIsSorted(walk: seq<Object>, prefix: string)
    requires ValidWalk(walk)
    ensures KeySorted(Sorted(walk, prefix))
    ensures forall o :: o in Sorted(walk, prefix) <==> o in walk && prefix <= o.key
    ensures forall o | o in Sorted(walk, prefix) :: o.key != ""
  {
    var matching := Matching(walk, prefix);
    MatchingDistinct(walk, prefix);
    SortSorts(matching);
    forall o
      ensures o in matching <==> o in walk && prefix <= o.key
    {
      MatchingMembers(walk, prefix, o);
    }
  }

  // ---- Delimiter cuts ----

  /** The common prefix a key falls under: everything up to and including the first delimiter after the prefix. */
  function Cut(key: string, prefix: string, delimiter: string): Option<string> {
    var rel := if prefix != "" then TrimPrefix(key, prefix) else key;
    match Index(rel, delimiter)
    case None => None
    case Some(i) => Some(prefix + rel[..i + |delimiter|])
  }

  predicate IsDirect(o: Object, prefix: string, delimiter: string) {
    delimiter == "" || Cut(o.key, prefix, delimiter).None?
  }

  function DirectOf(objects: seq<Object>, prefix: string, delimiter: string): seq<Object> {
    if objects == [] then [] else
      var last := objects[|objects| - 1];
      DirectOf(objects[..|objects| - 1], prefix, delimiter) + if IsDirect(last, prefix, delimiter) then [last] else []
  }

  lemma {:induction false} DirectMembers(objects: seq<Object>, prefix: string, delimiter: string, o: Object)
    ensures o in DirectOf(objects, prefix, delimiter) <==> o in objects && IsDirect(o, prefix, delimiter)
  {
    if objects != [] {
      hide IsDirect;
      DirectMembers(objects[..|objects| - 1], prefix, delimiter, o);
      assert objects == objects[..|objects| - 1] + [objects[|objects| - 1]];
    }
  }

  /** The cuts of the other objects, each where it first appears. */
  function CutsOf(objects: seq<Object>, prefix: string, delimiter: string): seq<string> {
    if objects == [] then [] else
      var last := objects[|objects| - 1];
      var earlier := CutsOf(objects[..|objects| - 1], prefix, delimiter);
      if IsDirect(last, prefix, delimiter) then earlier
      else
        var cut := Cut(last.key, prefix, delimiter).value;
        if cut in earlier then earlier else earlier + [cut]
  }

  ghost predicate IsCutOf(c: string, o: Object, prefix: string, delimiter: string) {
    delimiter != "" && Cut(o.key, prefix, delimiter) == Some(c)
  }

  /** A cut starts with the prefix and is itself a prefix of its key. */
  lemma CutShape(key: string, prefix: string, delimiter: string)
    requires prefix <= key && Cut(key, prefix, delimiter).Some?
    ensures prefix <= Cut(key, prefix, delimiter).value <= key
  {
    var rel := TrimPrefix(key, prefix);
    assert TrimPrefix(key, "") == key;
    assert key == prefix + rel;
    var i := Index(rel, delimiter).value;
    assert rel == rel[..i + |delimiter|] + rel[i + |delimiter|..];
  }

  /** A place where a key can be cut: beyond the prefix, right after a delimiter. */
  ghost predicate IsStop(c: string, key: string, prefix: string, delimiter: string) {
    prefix <= c <= key && |c| >= |prefix| + |delimiter| && c[|c| - |delimiter|..] == delimiter
  }

  lemma CutIsStop(key: string, prefix: string, delimiter: string)
    requires prefix <= key && Cut(key, prefix, delimiter).Some?
    ensures IsStop(Cut(key, prefix, delimiter).value, key, prefix, delimiter)
  {
    CutShape(key, prefix, delimiter);
    var rel := key[|prefix|..];
    assert TrimPrefix(key, "") == key;
    var i := Index(rel, delimiter).value;
    var c := Cut(key, prefix, delimiter).value;
    assert c == prefix + rel[..i + |delimiter|];
    assert c[|c| - |delimiter|..] == rel[i..i + |delimiter|];
  }

  lemma StopCuts(key: string, prefix: string, delimiter: string, d: string)
    requires IsStop(d, key, prefix, delimiter)
    ensures Cut(key, prefix, delimiter).Some? && |Cut(key, prefix, delimiter).value| <= |d|
  {
    var p, n := |prefix|, |delimiter|;
    var rel := key[p..];
    assert TrimPrefix(key, "") == key;
    assert rel[|d| - n - p..|d| - p] == key[|d| - n..|d|] == d[|d| - n..];
    assert OccursAt(rel, delimiter, |d| - n - p);
  }

  /** The cut is the shortest such stretch of the key, and there is none just when no such stretch exists. */
  lemma CutIsShortestStop(key: string, prefix: string, delimiter: string, c: string)
    requires prefix <= key
    ensures Cut(key, prefix, delimiter) == Some(c) <==>
            IsStop(c, key, prefix, delimiter) && forall d | IsStop(d, key, prefix, delimiter) :: |c| <= |d|
  {
    hide Cut;
    forall d | IsStop(d, key, prefix, delimiter)
      ensures Cut(key, prefix, delimiter).Some? && |Cut(key, prefix, delimiter).value| <= |d|
    {
      StopCuts(key, prefix, delimiter, d);
    }
    var cut := Cut(key, prefix, delimiter);
    if cut.Some? {
      CutIsStop(key, prefix, delimiter);
      if IsStop(c, key, prefix, delimiter) && |c| == |cut.value| {
        assert c == key[..|c|] == cut.value;
      }
    }
  }

  /** Whatever starts with the cut of one key has a cut itself, and not a longer one. */
  lemma CutBounds(k: string, l: string, prefix: string, delimiter: string)
    requires prefix <= k && prefix <= l && Cut(k, prefix, delimiter).Some?
    requires Cut(k, prefix, delimiter).value <= l
    ensures Cut(l, prefix, delimiter).Some?
    ensures Cut(l, prefix, delimiter).value == Cut(k, prefix, delimiter).value
  {
    var p, d := |prefix|, |delimiter|;
    var rk, rl := TrimPrefix(k, prefix), TrimPrefix(l, prefix);
    assert TrimPrefix(k, "") == k && TrimPrefix(l, "") == l;
    var i := Index(rk, delimiter).value;
    var c := Cut(k, prefix, delimiter).value;
    assert c == prefix + rk[..i + d];
    assert rk[..i + d] == c[p..] == l[p..|c|] == rl[..i + d];
    assert rl[i..i + d] == rl[..i + d][i..] == rk[..i + d][i..] == rk[i..i + d] == delimiter;
    assert OccursAt(rl, delimiter, i);
    var j := Index(rl, delimiter).value;
    assert j <= i;
    assert rk[j..j + d] == rk[..i + d][j..j + d] == rl[..i + d][j..j + d] == rl[j..j + d] == delimiter;
    assert OccursAt(rk, delimiter, j);
    assert i == j;
  }

  /** No cut begins a different cut. */
  lemma CutsNotNested(k: string, l: string, prefix: string, delimiter: string)
    requires prefix <= k && prefix <= l
    requires Cut(k, prefix, delimiter).Some? && Cut(l, prefix, delimiter).Some?
    requires Cut(k, prefix, delimiter) != Cut(l, prefix, delimiter)
    ensures !(Cut(k, prefix, delimiter).value <= Cut(l, prefix, delimiter).value)
  {
    CutShape(l, prefix, delimiter);
    hide Cut;
    if Cut(k, prefix, delimiter).value <= Cut(l, prefix, delimiter).value {
      CutBounds(k, l, prefix, delimiter);
      assert false;
    }
  }

  lemma PrefixAndRest(p: string, s: string)
    requires p <= s
    ensures s == p + s[|p|..]
  {
  }

  /** Over sorted keys the cuts are sorted: the first difference of two keys with different cuts lies inside the
      cuts. */
  lemma CutOrder(k: string, l: string, prefix: string, delimiter: string)
    requires prefix <= k && prefix <= l && Less(k, l)
    requires Cut(k, prefix, delimiter).Some? && Cut(l, prefix, delimiter).Some?
    requires Cut(k, prefix, delimiter) != Cut(l, prefix, delimiter)
    ensures Less(Cut(k, prefix, delimiter).value, Cut(l, prefix, delimiter).value)
  {
    var c, e := Cut(k, prefix, delimiter).value, Cut(l, prefix, delimiter).value;
    CutShape(k, prefix, delimiter);
    CutShape(l, prefix, delimiter);
    hide Cut, Less;
    CutsNotNested(k, l, prefix, delimiter);
    CutsNotNested(l, k, prefix, delimiter);
    PrefixAndRest(c, k);
    PrefixAndRest(e, l);
    LessDecidedEarly(c, k[|c|..], e, l[|e|..]);
  }

  lemma CutsStep(init: seq<Object>, last: Object, prefix: string, delimiter: string, c: string)
    requires delimiter != ""
    ensures c in CutsOf(init + [last], prefix, delimiter) <==>
            c in CutsOf(init, prefix, delimiter) || IsCutOf(c, last, prefix, delimiter)
  {
    hide Cut;
    assert (init + [last])[..|init|] == init;
  }

  lemma {:induction false} CutsOrigin(objects: seq<Object>, prefix: string, delimiter: string, c: string)
    requires delimiter != ""
    ensures c in CutsOf(objects, prefix, delimiter) <==> exists o | o in objects :: IsCutOf(c, o, prefix, delimiter)
  {
    hide Cut;
    if objects != [] {
      var init, last := objects[..|objects| - 1], objects[|objects| - 1];
      assert objects == init + [last];
      CutsOrigin(init, prefix, delimiter, c);
      CutsStep(init, last, prefix, delimiter, c);
      hide CutsOf;
      if o :| o in objects && IsCutOf(c, o, prefix, delimiter) {
        assert o in init || o == last;
      }
      if o :| o in init && IsCutOf(c, o, prefix, delimiter) {
        assert o in objects;
      }
    }
  }

  /** The common prefixes of sorted objects come out strictly ascending although nothing sorts them. */
  lemma {:induction false} CutsAscending(objects: seq<Object>, prefix: string, delimiter: string)
    requires delimiter != "" && KeySorted(objects) && forall o | o in objects :: prefix <= o.key
    ensures Ascending(CutsOf(objects, prefix, delimiter))
  {
    hide Cut;
    if objects != [] {
      var init, last := objects[..|objects| - 1], objects[|objects| - 1];
      CutsAscending(init, prefix, delimiter);
      var earlier := CutsOf(init, prefix, delimiter);
      if !IsDirect(last, prefix, delimiter) && Cut(last.key, prefix, delimiter).value !in earlier {
        forall i | 0 <= i < |earlier|
          ensures Less(earlier[i], Cut(last.key, prefix, delimiter).value)
        {
          CutsOrigin(init, prefix, delimiter, earlier[i]);
          var o :| o in init && IsCutOf(earlier[i], o, prefix, delimiter);
          CutOrder(o.key, last.key, prefix, delimiter);
        }
      }
    }
  }

  /** A direct object: nowhere after the prefix does the delimiter occur in its key. */
  lemma DirectMeaning(o: Object, prefix: string, delimiter: string)
    requires prefix <= o.key
    ensures IsDirect(o, prefix, delimiter) <==>
            delimiter == "" || forall i: nat | |prefix| <= i :: !OccursAt(o.key, delimiter, i)
  {
    if delimiter != "" {
      var rel := if prefix != "" then TrimPrefix(o.key, prefix) else o.key;
      assert rel == o.key[|prefix|..];
      forall i: nat
        ensures OccursAt(o.key, delimiter, |prefix| + i) <==> OccursAt(rel, delimiter, i)
      {
        if |prefix| + i + |delimiter| <= |o.key| {
          assert rel[i..i + |delimiter|] == o.key[|prefix| + i..|prefix| + i + |delimiter|];
        }
      }
      forall i: nat | |prefix| <= i
        ensures OccursAt(o.key, delimiter, i) <==> OccursAt(rel, delimiter, i - |prefix|)
      {
        assert i == |prefix| + (i - |prefix|);
      }
      if Index(rel, delimiter).Some? {
        assert OccursAt(o.key, delimiter, |prefix| + Index(rel, delimiter).value);
      }
    }
  }

  // ---- One page ----

  function PageOf(walk: seq<Object>, req: Request): Page {
    var max := ClampMaxKeys(req.maxKeys);
    var rest := Above(Sorted(walk, req.prefix), req.marker);
    var direct := DirectOf(rest, req.prefix, req.delimiter);
    var cuts := if req.delimiter == "" then [] else CutsOf(rest, req.prefix, req.delimiter);
    if |direct| > max then Page(direct[..max], cuts, true, direct[max - 1].key)
    else Page(direct, cuts, false, "")
  }

  /** What a listing is about: the matching objects with no delimiter after the prefix, in key order. */
  function Answer(walk: seq<Object>, prefix: string, delimiter: string): seq<Object> {
    DirectOf(Sorted(walk, prefix), prefix, delimiter)
  }

  lemma {:induction false} DirectSorted(objects: seq<Object>, prefix: string, delimiter: string)
    requires KeySorted(objects)
    ensures KeySorted(DirectOf(objects, prefix, delimiter))
  {
    hide IsDirect;
    if objects != [] {
      var n := |objects| - 1;
      DirectSorted(objects[..n], prefix, delimiter);
      var kept := DirectOf(objects[..n], prefix, delimiter);
      forall i | 0 <= i < |kept|
        ensures Less(kept[i].key, objects[n].key)
      {
        DirectMembers(objects[..n], prefix, delimiter, kept[i]);
        assert kept[i] in objects[..n];
      }
    }
  }

  lemma {:induction false} AboveDirect(objects: seq<Object>, marker: string, prefix: string, delimiter: string)
    ensures DirectOf(Above(objects, marker), prefix, delimiter) == Above(DirectOf(objects, prefix, delimiter), marker)
  {
    hide IsDirect, Less;
    if objects != [] {
      var init, last := objects[..|objects| - 1], objects[|objects| - 1];
      AboveDirect(init, marker, prefix, delimiter);
      var above, direct := Above(init, marker), DirectOf(init, prefix, delimiter);
      assert (above + [last])[..|above|] == above;
      assert (direct + [last])[..|direct|] == direct;
      assert above + [] == above && direct + [] == direct;
    }
  }

  lemma AboveSnoc(init: seq<Object>, last: Object, marker: string)
    ensures Above(init + [last], marker) == Above(init, marker) + if Less(marker, last.key) then [last] else []
  {
    assert (init + [last])[..|init|] == init;
  }

  /** Of a sorted sequence, what is above the key at `i` is what follows it. */
  lemma {:induction false} AboveSplit(objects: seq<Object>, marker: string, i: nat)
    requires i <= |objects|
    requires forall j | 0 <= j < i :: !Less(marker, objects[j].key)
    requires forall j | i <= j < |objects| :: Less(marker, objects[j].key)
    ensures Above(objects, marker) == objects[i..]
  {
    if objects == [] {
      assert Above(objects, marker) == [];
    } else {
      hide Less, Above;
      var n := |objects| - 1;
      var init := objects[..n];
      assert forall j | 0 <= j < n :: init[j] == objects[j];
      assert objects == init + [objects[n]];
      AboveSnoc(init, objects[n], marker);
      AboveSplit(init, marker, if i <= n then i else n);
    }
  }

  lemma {:induction false} AboveNothing(objects: seq<Object>)
    requires forall o | o in objects :: o.key != ""
    ensures Above(objects, "") == objects
  {
    forall j | 0 <= j < |objects|
      ensures Less("", objects[j].key)
    {
      assert objects[j] in objects;
    }
    AboveSplit(objects, "", 0);
  }

  ghost function FirstAbove(objects: seq<Object>, marker: string): (i: nat)
    requires KeySorted(objects)
    ensures i <= |objects|
    ensures forall j | 0 <= j < i :: !Less(marker, objects[j].key)
    ensures forall j | i <= j < |objects| :: Less(marker, objects[j].key)
  {
    if objects == [] then 0 else
      var n := |objects| - 1;
      var i := FirstAbove(objects[..n], marker);
      if Less(marker, objects[n].key) then i
      else
        assert i == n by {
          if i < n {
            LessTransitive(marker, objects[i].key, objects[n].key);
            assert false;
          }
        }
        n + 1
  }

  /** What stands above the key at position `k` of sorted objects. */
  lemma AboveOwnKey(objects: seq<Object>, k: nat)
    requires KeySorted(objects) && k < |objects|
    ensures Above(objects, objects[k].key) == objects[k + 1..]
  {
    hide Less, Above;
    forall j | 0 <= j < |objects|
      ensures Less(objects[k].key, objects[j].key) <==> k < j
    {
      LessTotal(objects[k].key, objects[j].key);
    }
    AboveSplit(objects, objects[k].key, k + 1);
  }

  /** Moving the marker to the key at `n - 1` of what remains leaves what follows it. */
  lemma AdvanceMarker(objects: seq<Object>, marker: string, n: nat)
    requires KeySorted(objects) && 0 < n <= |Above(objects, marker)|
    ensures Above(objects, Above(objects, marker)[n - 1].key) == Above(objects, marker)[n..]
  {
    hide Above;
    var i := FirstAbove(objects, marker);
    AboveSplit(objects, marker, i);
    hide KeySorted, Less;
    AboveOwnKey(objects, i + n - 1);
    assert objects[i..][n..] == objects[i + n..];
  }

  // ---- A whole client run ----

  /** A page is the next stretch of the answer, and says correctly whether and where to go on. */
  lemma PageMeaning(walk: seq<Object>, req: Request)
    requires ValidWalk(walk)
    ensures var all := Answer(walk, req.prefix, req.delimiter);
            var left, max, page := Above(all, req.marker), ClampMaxKeys(req.maxKeys), PageOf(walk, req);
            && KeySorted(all)
            && page.objects == left[..Min(max, |left|)]
            && (page.truncated <==> |left| > max)
            && (page.truncated ==> Above(all, page.nextMarker) == left[max..])
  {
    SortedIsSorted(walk, req.prefix);
    var sorted := Sorted(walk, req.prefix);
    DirectSorted(sorted, req.prefix, req.delimiter);
    AboveDirect(sorted, req.marker, req.prefix, req.delimiter);
    var all := Answer(walk, req.prefix, req.delimiter);
    var max := ClampMaxKeys(req.maxKeys);
    if |Above(all, req.marker)| > max {
      AdvanceMarker(all, req.marker, max);
    }
  }

  /** Following the markers from `marker` until a page is not truncated. */
  ghost function Follow(walk: seq<Object>, req: Request): seq<Object>
    requires ValidWalk(walk)
    decreases |Above(Answer(walk, req.prefix, req.delimiter), req.marker)|
  {
    PageMeaning(walk, req);
    var page := PageOf(walk, req);
    if page.truncated then page.objects + Follow(walk, req.(marker := page.nextMarker)) else page.objects
  }

  lemma {:induction false} FollowGivesRest(walk: seq<Object>, req: Request)
    requires ValidWalk(walk)
    ensures Follow(walk, req) == Above(Answer(walk, req.prefix, req.delimiter), req.marker)
    decreases |Above(Answer(walk, req.prefix, req.delimiter), req.marker)|
  {
    hide PageOf, Above, Answer, KeySorted, ClampMaxKeys;
    PageMeaning(walk, req);
    var page := PageOf(walk, req);
    if page.truncated {
      FollowGivesRest(walk, req.(marker := page.nextMarker));
    }
  }

  /** Started without a marker, the client run ends and delivers exactly the matching direct objects, each
      once, in strictly ascending key order, for every page size. */
  lemma PaginationComplete(walk: seq<Object>, prefix: string, delimiter: string, maxKeys: int)
    requires ValidWalk(walk)
    ensures var got := Follow(walk, Request(prefix, delimiter, "", maxKeys));
            && KeySorted(got)
            && forall o :: o in got <==>
                 && o in walk && prefix <= o.key
                 && (delimiter == "" || forall i: nat | |prefix| <= i :: !OccursAt(o.key, delimiter, i))
  {
    hide IsDirect, PageOf, Follow, Sorted, OccursAt;
    SortedIsSorted(walk, prefix);
    DirectSorted(Sorted(walk, prefix), prefix, delimiter);
    FollowGivesRest(walk, Request(prefix, delimiter, "", maxKeys));
    var all := Answer(walk, prefix, delimiter);
    forall o
      ensures o in all <==> o in walk && prefix <= o.key && IsDirect(o, prefix, delimiter)
    {
      DirectMembers(Sorted(walk, prefix), prefix, delimiter, o);
    }
    forall o: Object | prefix <= o.key
      ensures IsDirect(o, prefix, delimiter) <==>
              delimiter == "" || forall i: nat | |prefix| <= i :: !OccursAt(o.key, delimiter, i)
    {
      DirectMeaning(o, prefix, delimiter);
    }
    AboveNothing(all);
  }

  /** The first page's common prefixes: strictly ascending, and every matching key is either a direct object
      under none of them or lies under exactly one of them. */
  lemma CommonPrefixesPartition(walk: seq<Object>, prefix: string, delimiter: string, maxKeys: int, o: Object)
    requires ValidWalk(walk) && delimiter != "" && o in walk && prefix <= o.key
    ensures var cuts := PageOf(walk, Request(prefix, delimiter, "", maxKeys)).commonPrefixes;
            && Ascending(cuts)
            && (IsDirect(o, prefix, delimiter) ==> forall c | c in cuts :: !(c <= o.key))
            && (!IsDirect(o, prefix, delimiter) ==>
                  && Cut(o.key, prefix, delimiter).value in cuts
                  && forall c | c in cuts :: c <= o.key <==> c == Cut(o.key, prefix, delimiter).value)
  {
    hide Cut, CutsOf, DirectOf, Less, Above, Sorted;
    SortedIsSorted(walk, prefix);
    var sorted := Sorted(walk, prefix);
    AboveNothing(sorted);
    CutsAscending(sorted, prefix, delimiter);
    var cuts := CutsOf(sorted, prefix, delimiter);
    forall c | c in cuts && c <= o.key
      ensures Cut(o.key, prefix, delimiter) == Some(c)
    {
      CutsOrigin(sorted, prefix, delimiter, c);
      var p :| p in sorted && IsCutOf(c, p, prefix, delimiter);
      CutBounds(p.key, o.key, prefix, delimiter);
    }
    if !IsDirect(o, prefix, delimiter) {
      CutShape(o.key, prefix, delimiter);
      var c := Cut(o.key, prefix, delimiter).value;
      assert IsCutOf(c, o, prefix, delimiter) && o in sorted;
      CutsOrigin(sorted, prefix, delimiter, c);
    }
  }

  lemma SuffixSorted(objects: seq<Object>, i: nat, prefix: string)
    requires KeySorted(objects) && i <= |objects| && forall o | o in objects :: prefix <= o.key
    ensures KeySorted(objects[i..]) && forall o | o in objects[i..] :: prefix <= o.key
  {
    hide Less;
  }

  /** On every page, wherever the marker stands, the common prefixes come out strictly ascending. */
  lemma EveryPageAscending(walk: seq<Object>, req: Request)
    requires ValidWalk(walk)
    ensures Ascending(PageOf(walk, req).commonPrefixes)
  {
    hide CutsOf, DirectOf, Sorted, Less, KeySorted, Above;
    if req.delimiter != "" {
      SortedIsSorted(walk, req.prefix);
      var sorted := Sorted(walk, req.prefix);
      var i := FirstAbove(sorted, req.marker);
      AboveSplit(sorted, req.marker, i);
      SuffixSorted(sorted, i, req.prefix);
      CutsAscending(sorted[i..], req.prefix, req.delimiter);
    }
  }

  /** The common prefixes of any page are exactly the cuts of the matching keys above its marker. */
  lemma PageCuts(walk: seq<Object>, req: Request, c: string)
    requires ValidWalk(walk)
    ensures c in PageOf(walk, req).commonPrefixes <==>
            req.delimiter != "" &&
            exists o :: o in walk && req.prefix <= o.key && Less(req.marker, o.key) &&
                        Cut(o.key, req.prefix, req.delimiter) == Some(c)
  {
    SortedIsSorted(walk, req.prefix);
    var sorted := Sorted(walk, req.prefix);
    var rest := Above(sorted, req.marker);
    hide CutsOf, Sorted, Above, DirectOf, Less, Cut;
    if req.delimiter != "" {
      CutsOrigin(rest, req.prefix, req.delimiter, c);
      forall o
        ensures o in rest <==> o in walk && req.prefix <= o.key && Less(req.marker, o.key)
      {
        AboveMembers(sorted, req.marker, o);
      }
      assert forall o :: IsCutOf(c, o, req.prefix, req.delimiter) <==> Cut(o.key, req.prefix, req.delimiter) == Some(c);
    }
  }

  /** Later pages bring no common prefix that the first page did not have. */
  lemma LaterPagesAddNoPrefix(walk: seq<Object>, req: Request, c: string)
    requires ValidWalk(walk) && c in PageOf(walk, req).commonPrefixes
    ensures c in PageOf(walk, req.(marker := "")).commonPrefixes
  {
    hide IsCutOf, CutsOf, Sorted, Above, DirectOf;
    SortedIsSorted(walk, req.prefix);
    var sorted := Sorted(walk, req.prefix);
    AboveNothing(sorted);
    CutsOrigin(Above(sorted, req.marker), req.prefix, req.delimiter, c);
    var o :| o in Above(sorted, req.marker) && IsCutOf(c, o, req.prefix, req.delimiter);
    AboveMembers(sorted, req.marker, o);
    CutsOrigin(sorted, req.prefix, req.delimiter, c);
  }

  // ---- The handler ----

  /** The walk with its prefix filter. */
  method List(walk: seq<Object>, prefix: string) returns (objects: seq<Object>)
    ensures objects == Matching(walk, prefix)
  {
    objects := [];
    for i := 0 to |walk|
      invariant objects == Matching(walk[..i], prefix)
    {
      assert walk[..i + 1][..i] == walk[..i];
      if prefix == "" || prefix <= walk[i].key {
        objects := objects + [walk[i]];
      }
    }
    assert walk[..|walk|] == walk;
  }

  /** The index of the first object above the marker. */
  method StartIndex(objects: seq<Object>, marker: string) returns (start: nat)
    requires KeySorted(objects) && forall o | o in objects :: o.key != ""
    ensures start <= |objects|
    ensures objects[start..] == Above(objects, marker)
  {
    start := 0;
    if marker != "" {
      for i := 0 to |objects|
        invariant start == if i == |objects| && i > 0 then |objects| else 0
        invariant forall j | 0 <= j < i :: !Less(marker, objects[j].key)
      {
        if Less(marker, objects[i].key) {
          start := i;
          forall j | i <= j < |objects|
            ensures Less(marker, objects[j].key)
          {
            if i < j {
              LessTransitive(marker, objects[i].key, objects[j].key);
            }
          }
          AboveSplit(objects, marker, i);
          return;
        }
        if i == |objects| - 1 {
          start := |objects|;
        }
      }
      AboveSplit(objects, marker, |objects|);
    } else {
      AboveNothing(objects);
    }
  }

  lemma GroupStep(init: seq<Object>, last: Object, prefix: string, delimiter: string)
    requires delimiter != ""
    ensures var cut := Cut(last.key, prefix, delimiter);
            var direct, cuts := DirectOf(init, prefix, delimiter), CutsOf(init, prefix, delimiter);
            && DirectOf(init + [last], prefix, delimiter) == (if cut.None? then direct + [last] else direct)
            && CutsOf(init + [last], prefix, delimiter) ==
               (if cut.None? || cut.value in cuts then cuts else cuts + [cut.value])
  {
    hide Cut;
    assert (init + [last])[..|init|] == init;
  }

  ghost function SetOf(cuts: seq<string>): set<string> {
    set c | c in cuts
  }

  lemma NothingGrouped(prefix: string, delimiter: string)
    ensures DirectOf([], prefix, delimiter) == [] && CutsOf([], prefix, delimiter) == [] && SetOf([]) == {}
  {
  }

  lemma SetOfAppend(cuts: seq<string>, obj: Object, prefix: string, delimiter: string)
    ensures forall c :: c in SetOf(cuts) <==> c in cuts
    ensures var cut := Cut(obj.key, prefix, delimiter);
            cut.Some? ==> SetOf(cuts + [cut.value]) == SetOf(cuts) + {cut.value}
  {
    hide Cut;
  }

  /** The grouping loop, with its set of prefixes already seen. */
  method Group(objects: seq<Object>, start: nat, prefix: string, delimiter: string)
    returns (direct: seq<Object>, cuts: seq<string>)
    requires start <= |objects| && delimiter != ""
    ensures direct == DirectOf(objects[start..], prefix, delimiter)
    ensures cuts == CutsOf(objects[start..], prefix, delimiter)
  {
    var seen: set<string> := {};
    direct, cuts := [], [];
    ghost var grouped: seq<Object> := [];
    hide DirectOf, CutsOf, Cut;
    NothingGrouped(prefix, delimiter);
    for idx := start to |objects|
      invariant grouped == objects[start..idx]
      invariant direct == DirectOf(grouped, prefix, delimiter) && cuts == CutsOf(grouped, prefix, delimiter)
      invariant seen == SetOf(cuts)
    {
      var obj := objects[idx];
      GroupStep(grouped, obj, prefix, delimiter);
      SetOfAppend(cuts, obj, prefix, delimiter);
      var cut := Cut(obj.key, prefix, delimiter);
      if cut.Some? {
        if cut.value !in seen {
          seen := seen + {cut.value};
          cuts := cuts + [cut.value];
        }
      } else {
        direct := direct + [obj];
      }
      grouped := grouped + [obj];
    }
    assert grouped == objects[start..];
  }

  lemma {:induction false} NoDelimiterAllDirect(objects: seq<Object>, prefix: string)
    ensures DirectOf(objects, prefix, "") == objects
  {
    if objects != [] {
      NoDelimiterAllDirect(objects[..|objects| - 1], prefix);
    }
  }

  method ListObjects(walk: seq<Object>, req: Request) returns (page: Page)
    requires ValidWalk(walk)
    ensures page == PageOf(walk, req)
  {
    hide Matching, SortByKey, Above, DirectOf, CutsOf, KeySorted, Less;
    var maxKeys := req.maxKeys;
    if maxKeys <= 0 {
      maxKeys := 1000;
    }
    if maxKeys > 10000 {
      maxKeys := 10000;
    }
    var objects := List(walk, req.prefix);
    objects := SortByKey(objects);
    SortedIsSorted(walk, req.prefix);
    var start := StartIndex(objects, req.marker);
    var filtered, cuts := [], [];
    if req.delimiter != "" {
      filtered, cuts := Group(objects, start, req.prefix, req.delimiter);
    } else {
      NoDelimiterAllDirect(objects[start..], req.prefix);
      if start < |objects| {
        filtered := objects[start..];
      }
    }
    page := Page(filtered, cuts, false, "");
    if |filtered| > maxKeys {
      page := Page(filtered[..maxKeys], cuts, true, filtered[maxKeys - 1].key);
    }
  }
}
