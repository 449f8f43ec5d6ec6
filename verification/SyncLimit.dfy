/** Where the limit of a listing matters. A directory walk delivers names in a fixed order, so which objects a cut
    listing leaves out depends on how many names stand before them: exactly when fewer than the limit do, or every
    node has the object already, do all schedules of complete pulls bring it everywhere. */
module SyncLimit {
  import opened Text
  import opened PeerSync

  // ---- The order of a walk ----

  /** The separator of path components comes before all characters. */
  function Rank(c: char): nat {
    if c == '/' then 0 else c as nat + 1
  }

  /** Path by path component, the order in which a directory walk meets files. */
  predicate KeyBefore(a: string, b: string) {
    if |b| == 0 then false
    else if |a| == 0 then true
    else Rank(a[0]) < Rank(b[0]) || (a[0] == b[0] && KeyBefore(a[1..], b[1..]))
  }

  /** What may follow a path component: nothing, or the separator and the rest of the path. */
  predicate AfterComponent(s: string) {
    s == "" || s[0] == '/'
  }

  /** Within a directory the walk goes by the byte order of the entries' names, whether files or directories, */
  lemma {:induction false} EntriesInByteOrder(c: string, s: string, d: string, t: string)
    requires '/' !in c && '/' !in d && AfterComponent(s) && AfterComponent(t) && c != d
    ensures KeyBefore(c + s, d + t) <==> Less(c, d)
  {
    if c != "" && d != "" {
      assert (c + s)[1..] == c[1..] + s && (d + t)[1..] == d[1..] + t;
      if c[0] == d[0] {
        assert c == [c[0]] + c[1..] && d == [d[0]] + d[1..];
        EntriesInByteOrder(c[1..], s, d[1..], t);
      }
    } else {
      assert "" + s == s && "" + t == t;
    }
  }

  /** and below a directory it goes on in the same way. */
  lemma {:induction false} DirectoriesDescend(c: string, x: string, y: string)
    ensures KeyBefore(c + "/" + x, c + "/" + y) <==> KeyBefore(x, y)
  {
    if c == "" {
      assert ("" + "/" + x)[1..] == x && ("" + "/" + y)[1..] == y;
    } else {
      assert (c + "/" + x)[1..] == c[1..] + "/" + x && (c + "/" + y)[1..] == c[1..] + "/" + y;
      DirectoriesDescend(c[1..], x, y);
    }
  }

  /** Bucket by bucket, as the directory lists them, and within a bucket as a walk meets its files. */
  predicate Before(m: Name, n: Name) {
    Less(m.0, n.0) || (m.0 == n.0 && KeyBefore(m.1, n.1))
  }

  lemma {:induction false} KeyTotal(a: string, b: string)
    ensures KeyBefore(a, b) || a == b || KeyBefore(b, a)
    ensures !(KeyBefore(a, b) && KeyBefore(b, a)) && !KeyBefore(a, a)
  {
    if |a| != 0 && |b| != 0 {
      KeyTotal(a[1..], b[1..]);
      if a[0] == b[0] && a[1..] == b[1..] {
        assert a == [a[0]] + a[1..] == b;
      }
    }
    if |a| != 0 {
      KeyTotal(a[1..], a[1..]);
    }
  }

  lemma {:induction false} KeyTransitive(a: string, b: string, c: string)
    requires KeyBefore(a, b) && KeyBefore(b, c)
    ensures KeyBefore(a, c)
  {
    if |a| != 0 && a[0] == b[0] == c[0] {
      KeyTransitive(a[1..], b[1..], c[1..]);
    }
  }

  lemma BeforeTotal(m: Name, n: Name)
    ensures Before(m, n) || m == n || Before(n, m)
    ensures !(Before(m, n) && Before(n, m)) && !Before(m, m)
  {
    hide Less, KeyBefore;
    LessTotal(m.0, n.0);
    KeyTotal(m.1, n.1);
    assert m == (m.0, m.1) && n == (n.0, n.1);
  }

  lemma BeforeTransitive(l: Name, m: Name, n: Name)
    requires Before(l, m) && Before(m, n)
    ensures Before(l, n)
  {
    hide Less, KeyBefore;
    if Less(l.0, m.0) && Less(m.0, n.0) {
      LessTransitive(l.0, m.0, n.0);
    }
    if KeyBefore(l.1, m.1) && KeyBefore(m.1, n.1) {
      KeyTransitive(l.1, m.1, n.1);
    }
  }

  ghost predicate Ordered(names: seq<Name>) {
    forall i, j | 0 <= i < j < |names| :: Before(names[i], names[j])
  }

  lemma OrderedDistinct(names: seq<Name>)
    requires Ordered(names)
    ensures forall i, j | 0 <= i < j < |names| :: names[i] != names[j]
  {
    hide Before;
    forall i, j | 0 <= i < j < |names|
      ensures names[i] != names[j]
    {
      BeforeTotal(names[i], names[j]);
    }
  }

  ghost predicate IsFirst(n: Name, names: set<Name>) {
    n in names && forall m | m in names :: m == n || Before(n, m)
  }

  lemma {:induction false} FirstName(names: set<Name>) returns (n: Name)
    requires names != {}
    ensures IsFirst(n, names)
    decreases |names|
  {
    hide Before;
    var x :| x in names;
    if names == {x} {
      n := x;
    } else {
      var y := FirstName(names - {x});
      BeforeTotal(x, y);
      n := if Before(x, y) then x else y;
      forall m | m in names
        ensures m == n || Before(n, m)
      {
        if m != x && m != y && n == x {
          BeforeTransitive(x, y, m);
        }
      }
    }
  }

  lemma {:induction false} SortedNames(names: set<Name>) returns (r: seq<Name>)
    ensures Ordered(r) && forall n :: n in r <==> n in names
    decreases |names|
  {
    hide Before;
    if names == {} {
      r := [];
    } else {
      var n := FirstName(names);
      var rest := SortedNames(names - {n});
      assert forall i | 0 <= i < |rest| :: rest[i] in rest;
      r := [n] + rest;
    }
  }

  // ---- The server's answer is in that order ----

  ghost predicate WalkOrdered(walk: seq<Entry>) {
    forall i, j | 0 <= i < j < |walk| :: KeyBefore(walk[i].key, walk[j].key)
  }

  ghost predicate DirsOrdered(dirs: seq<Dir>) {
    && (forall i, j | 0 <= i < j < |dirs| :: Less(dirs[i].bucket, dirs[j].bucket))
    && forall i | 0 <= i < |dirs| :: WalkOrdered(dirs[i].walk)
  }

  lemma OrderedAppend(a: seq<Name>, b: seq<Name>)
    requires Ordered(a) && Ordered(b) && forall m, n | m in a && n in b :: Before(m, n)
    ensures Ordered(a + b)
  {
    hide Before;
  }

  lemma {:induction false} WalkListed(bucket: string, walk: seq<Entry>, req: ListRequest)
    requires WalkOrdered(walk)
    ensures var names := NamesOf(Listed(bucket, walk, req));
            && Ordered(names)
            && forall n | n in names :: n.0 == bucket && exists i :: 0 <= i < |walk| && walk[i].key == n.1
  {
    hide Less, KeyBefore;
    if walk != [] {
      var init, e := walk[..|walk| - 1], walk[|walk| - 1];
      WalkListed(bucket, init, req);
      var before := Listed(bucket, init, req);
      if Listed(bucket, walk, req) == before {
        forall n | n in NamesOf(before)
          ensures exists i :: 0 <= i < |walk| && walk[i].key == n.1
        {
          var i :| 0 <= i < |init| && init[i].key == n.1;
          assert walk[i].key == n.1;
        }
      } else {
        var n: Name := (bucket, e.key);
        assert NamesOf(Listed(bucket, walk, req)) == NamesOf(before) + [n];
        forall m | m in NamesOf(before)
          ensures Before(m, n) && exists i :: 0 <= i < |walk| && walk[i].key == m.1
        {
          var i :| 0 <= i < |init| && init[i].key == m.1;
          assert walk[i].key == m.1 && KeyBefore(walk[i].key, walk[|walk| - 1].key);
        }
        assert walk[|walk| - 1].key == n.1;
        OrderedAppend(NamesOf(before), [n]);
      }
    }
  }

  /** Directories and walks in their order make an answer in order, whatever the request filters out. */
  lemma {:induction false} AnswerOrdered(dirs: seq<Dir>, req: ListRequest)
    requires DirsOrdered(dirs)
    ensures var names := NamesOf(AllListed(dirs, req));
            Ordered(names) && forall n | n in names :: exists i :: 0 <= i < |dirs| && dirs[i].bucket == n.0
  {
    hide Less, KeyBefore;
    if dirs != [] {
      var init, d := dirs[..|dirs| - 1], dirs[|dirs| - 1];
      AnswerOrdered(init, req);
      WalkListed(d.bucket, d.walk, req);
      var before := NamesOf(AllListed(init, req));
      var more := if Wanted(d, req) then NamesOf(Listed(d.bucket, d.walk, req)) else [];
      assert NamesOf(AllListed(dirs, req)) == before + more;
      forall m | m in before
        ensures Less(m.0, d.bucket) && exists i :: 0 <= i < |dirs| && dirs[i].bucket == m.0
      {
        var i :| 0 <= i < |init| && init[i].bucket == m.0;
        assert dirs[i].bucket == m.0;
      }
      assert dirs[|dirs| - 1].bucket == d.bucket;
      OrderedAppend(before, more);
    }
  }

  // ---- Runs with answers in order ----

  ghost predicate OrderedListing(start: seq<Objects>, s: System, p: Pair, s': System) {
    && p in s.pulls && s.pulls[p].NotStarted? && p.1 < |s.nodes| == |start|
    && exists names :: Glimpse(names, start[p.1], s.nodes[p.1]) && Ordered(names) &&
                       s' == s.(pulls := s.pulls[p := Todo(Truncated(names, PULL_LIMIT))])
  }

  ghost predicate OrderedStepOf(start: seq<Objects>, s: System, p: Pair, s': System) {
    OrderedListing(start, s, p, s') || OtherStep(s, p, s')
  }

  ghost predicate OrderedStep(start: seq<Objects>, s: System, s': System) {
    exists p :: OrderedStepOf(start, s, p, s')
  }

  ghost predicate IsOrderedRun(start: seq<Objects>, run: seq<System>) {
    && run != [] && Initial(start, run[0])
    && forall i | 0 <= i < |run| - 1 :: OrderedStep(start, run[i], run[i + 1])
  }

  lemma OrderedIsStep(start: seq<Objects>, s: System, s': System)
    requires OrderedStep(start, s, s')
    ensures Step(start, s, s')
  {
    hide OtherStep, Glimpse, Ordered;
    var p :| OrderedStepOf(start, s, p, s');
    assert StepOf(start, s, p, s');
  }

  lemma OrderedIsRun(start: seq<Objects>, run: seq<System>)
    requires IsOrderedRun(start, run)
    ensures IsRun(start, run)
  {
    hide OrderedStep, Step, Initial;
    forall i | 0 <= i < |run| - 1
      ensures Step(start, run[i], run[i + 1])
    {
      OrderedIsStep(start, run[i], run[i + 1]);
    }
  }

  // ---- Names that every listing shows ----

  ghost function NamesBefore(names: set<Name>, n: Name): set<Name> {
    set m | m in names && Before(m, n)
  }

  /** So few names stand before `n` in all content together that no listing cuts it off. */
  ghost predicate Early(start: seq<Objects>, n: Name) {
    |NamesBefore(Union(start), n)| < 1000
  }

  lemma EarlyShown(names: seq<Name>, all: set<Name>, n: Name)
    requires Ordered(names) && (forall m | m in names :: m in all) && n in names && |NamesBefore(all, n)| < PULL_LIMIT
    ensures n in Truncated(names, PULL_LIMIT)
  {
    hide Before;
    var i :| 0 <= i < |names| && names[i] == n;
    OrderedDistinct(names);
    forall m | m in names[..i]
      ensures m in NamesBefore(all, n)
    {
      var j :| 0 <= j < i && names[j] == m;
      assert Before(names[j], names[i]) && names[j] in names;
    }
    DistinctAtMost(names[..i], NamesBefore(all, n));
    assert Truncated(names, PULL_LIMIT)[i] == n;
  }

  /** The early names, if no names lie below each other. */
  ghost function EarlyNames(start: seq<Objects>): set<Name> {
    if Unnested(Union(start)) then set n | n in Union(start) && Early(start, n) else {}
  }

  lemma OrderedListingInv(start: seq<Objects>, s: System, p: Pair, s': System)
    requires Inv(start, EarlyNames(start), s) && OrderedListing(start, s, p, s')
    ensures Inv(start, EarlyNames(start), s')
  {
    var names :| Glimpse(names, start[p.1], s.nodes[p.1]) && Ordered(names) &&
                 s' == s.(pulls := s.pulls[p := Todo(Truncated(names, PULL_LIMIT))]);
    assert NodeOk(start, p.1, s.nodes[p.1]);
    WithinUnion(start, p.1, s.nodes[p.1]);
    hide Inv, Union, NodeOk, NamesBefore, Unnested, Ordered, ContentNames;
    forall n | n in EarlyNames(start) && n in names
      ensures n in Truncated(names, PULL_LIMIT)
    {
      EarlyShown(names, Union(start), n);
    }
    ListedInv(start, EarlyNames(start), s, p, names);
  }

  lemma OrderedStepInv(start: seq<Objects>, s: System, s': System)
    requires Inv(start, EarlyNames(start), s) && OrderedStep(start, s, s')
    ensures Inv(start, EarlyNames(start), s')
  {
    hide Inv, EarlyNames, OrderedListing, OtherStep;
    var p :| OrderedStepOf(start, s, p, s');
    if OrderedListing(start, s, p, s') {
      OrderedListingInv(start, s, p, s');
    } else {
      OtherInv(start, EarlyNames(start), s, p, s');
    }
  }

  lemma {:induction false} OrderedRunInv(start: seq<Objects>, run: seq<System>)
    requires IsOrderedRun(start, run)
    ensures Inv(start, EarlyNames(start), Last(run))
    decreases |run|
  {
    hide Inv, OrderedStep, Initial;
    if |run| == 1 {
      InitialInv(start, EarlyNames(start), run[0]);
    } else {
      OrderedRunInv(start, run[..|run| - 1]);
      OrderedStepInv(start, run[|run| - 2], run[|run| - 1]);
    }
  }

  // ---- One whole pull as a run ----

  /** A moment at which no pull is under way. */
  ghost predicate Quiet(start: seq<Objects>, s: System) {
    && |s.nodes| == |start|
    && (forall p :: p in s.pulls <==> IsPair(start, p))
    && (forall p | p in s.pulls :: s.pulls[p].NotStarted? || s.pulls[p].Finished?)
    && forall h: nat | h < |start| ::
         Unnested(s.nodes[h].Keys) && ContentNames(start[h]) <= ContentNames(s.nodes[h]) <= Union(start)
  }

  ghost predicate Reached(start: seq<Objects>, run: seq<System>) {
    IsOrderedRun(start, run) && Quiet(start, Last(run))
  }

  /** What a run cannot spoil. */
  lemma QuietReached(start: seq<Objects>, run: seq<System>)
    requires IsOrderedRun(start, run)
    requires forall p | p in Last(run).pulls :: Last(run).pulls[p].NotStarted? || Last(run).pulls[p].Finished?
    ensures Reached(start, run)
  {
    OrderedIsRun(start, run);
    RunInv(start, run);
    var s := Last(run);
    hide IsRun, IsOrderedRun, Last, Union, Unnested, Covered, OnTheWay, SureNames;
    forall h: nat | h < |start|
      ensures Unnested(s.nodes[h].Keys) && ContentNames(start[h]) <= ContentNames(s.nodes[h]) <= Union(start)
    {
      assert NodeOk(start, h, s.nodes[h]);
      WithinUnion(start, h, s.nodes[h]);
    }
  }

  lemma Extend(start: seq<Objects>, run: seq<System>, p: Pair, s': System)
    requires IsOrderedRun(start, run) && OrderedStepOf(start, Last(run), p, s')
    ensures IsOrderedRun(start, run + [s']) && Last(run + [s']) == s'
  {
    hide OrderedStepOf, Initial;
    var more := run + [s'];
    assert OrderedStep(start, Last(run), s');
    assert forall i | 0 <= i < |run| - 1 :: OrderedStep(start, run[i], run[i + 1]);
    forall i | 0 <= i < |more| - 1
      ensures OrderedStep(start, more[i], more[i + 1])
    {
    }
  }

  /** The puller after one listed name. */
  ghost function AfterOne(mine: Objects, theirs: Objects, n: Name): Objects
    requires n in theirs
  {
    if n in mine || Blocked(mine, n) then mine else mine[n := theirs[n]]
  }

  lemma NextBlocks(mine: Objects, theirs: Objects, n: Name, m: Name)
    requires n in theirs && m in theirs && Unnested(theirs.Keys)
    ensures Blocked(AfterOne(mine, theirs, n), m) <==> Blocked(mine, m)
  {
    var next := AfterOne(mine, theirs, n);
    if Blocked(mine, m) {
      var k :| k in mine && (Below(k, m) || Below(m, k));
      assert k in next;
    }
    if Blocked(next, m) {
      var k :| k in next && (Below(k, m) || Below(m, k));
      assert k in mine;
    }
  }

  lemma FrontOfPull(mine: Objects, theirs: Objects, n: Name, rest: seq<Name>)
    requires IsContent(n) && n in theirs
    requires forall m | m in theirs :: Blocked(AfterOne(mine, theirs, n), m) <==> Blocked(mine, m)
    ensures Pulled(mine, theirs, [n] + rest) == Pulled(AfterOne(mine, theirs, n), theirs, rest)
  {
    hide Blocked, IsContent;
    assert forall m :: m in [n] + rest <==> m == n || m in rest;
    var all, later := Pulled(mine, theirs, [n] + rest), Pulled(AfterOne(mine, theirs, n), theirs, rest);
    assert forall m :: m in all <==> m in later;
  }

  lemma PulledFront(mine: Objects, theirs: Objects, n: Name, rest: seq<Name>)
    requires IsContent(n) && n in theirs && Unnested(theirs.Keys)
    ensures Pulled(mine, theirs, [n] + rest) == Pulled(AfterOne(mine, theirs, n), theirs, rest)
  {
    forall m | m in theirs
      ensures Blocked(AfterOne(mine, theirs, n), m) <==> Blocked(mine, m)
    {
      NextBlocks(mine, theirs, n, m);
    }
    hide Blocked, IsContent, Unnested;
    FrontOfPull(mine, theirs, n, rest);
  }

  /** The state after a pull that nothing disturbed. */
  ghost function After(s: System, p: Pair, names: seq<Name>): System
    requires p.0 < |s.nodes| && p.1 < |s.nodes|
  {
    System(s.nodes[p.0 := Pulled(s.nodes[p.0], s.nodes[p.1], names)], s.pulls[p := Finished])
  }

  lemma AfterNothing(s: System, p: Pair)
    requires p.0 < |s.nodes| && p.1 < |s.nodes|
    ensures After(s, p, []) == s.(pulls := s.pulls[p := Finished])
  {
    PulledNothing(s.nodes[p.0], s.nodes[p.1]);
  }

  ghost predicate Working(start: seq<Objects>, run: seq<System>, p: Pair, names: seq<Name>) {
    && IsOrderedRun(start, run) && p.0 < |Last(run).nodes| && p.1 < |Last(run).nodes| && p.0 != p.1
    && p in Last(run).pulls && Last(run).pulls[p] == Todo(names)
    && Unnested(Last(run).nodes[p.1].Keys) && forall n | n in names :: IsContent(n) && n in Last(run).nodes[p.1]
  }

  /** Fetching and storing one name that was found missing. */
  lemma Fetched(start: seq<Objects>, run: seq<System>, p: Pair, n: Name, rest: seq<Name>) returns (run': seq<System>)
    requires IsOrderedRun(start, run) && p.0 < |Last(run).nodes| && p.1 < |Last(run).nodes|
    requires p in Last(run).pulls && Last(run).pulls[p] == Missing(n, rest) && n in Last(run).nodes[p.1]
    ensures var s := Last(run);
            IsOrderedRun(start, run') &&
            Last(run') == System(s.nodes[p.0 := Stored(s.nodes[p.0], n, s.nodes[p.1][n])], s.pulls[p := Todo(rest)])
  {
    hide OrderedStep, Initial, Last, Stored;
    var s := Last(run);
    var b := s.(pulls := s.pulls[p := Received(n, s.nodes[p.1][n], rest)]);
    assert FetchStep(s, p, b);
    Extend(start, run, p, b);
    var c := System(s.nodes[p.0 := Stored(s.nodes[p.0], n, s.nodes[p.1][n])], s.pulls[p := Todo(rest)]);
    assert c.pulls == b.pulls[p := Todo(rest)];
    assert StoreStep(b, p, c);
    run' := run + [b] + [c];
    Extend(start, run + [b], p, c);
  }

  lemma OccupiedBlocks(objects: Objects, n: Name)
    ensures Occupied(objects, n) ==> Blocked(objects, n)
  {
  }

  /** The steps for one listed name. */
  lemma Handled(start: seq<Objects>, run: seq<System>, p: Pair, n: Name, rest: seq<Name>) returns (run': seq<System>)
    requires Working(start, run, p, [n] + rest)
    ensures var s := Last(run);
            Working(start, run', p, rest) &&
            Last(run') == System(s.nodes[p.0 := AfterOne(s.nodes[p.0], s.nodes[p.1], n)], s.pulls[p := Todo(rest)])
  {
    hide OrderedStep, Initial, Last, IsContent, Unnested;
    var s := Last(run);
    var mine := s.nodes[p.0];
    assert ([n] + rest)[1..] == rest && n in [n] + rest && forall m | m in rest :: m in [n] + rest;
    if n in mine || Occupied(mine, n) {
      OccupiedBlocks(mine, n);
      var a := s.(pulls := s.pulls[p := Todo(rest)]);
      assert CheckStep(s, p, a);
      run' := run + [a];
      Extend(start, run, p, a);
    } else {
      var a := s.(pulls := s.pulls[p := Missing(n, rest)]);
      assert CheckStep(s, p, a);
      Extend(start, run, p, a);
      hide CheckStep, Occupied, Blocked;
      run' := Fetched(start, run + [a], p, n, rest);
      assert a.pulls[p := Todo(rest)] == s.pulls[p := Todo(rest)];
    }
  }

  /** Working off the rest of a listing. */
  lemma {:induction false} WorkOff(start: seq<Objects>, run: seq<System>, p: Pair, names: seq<Name>)
    returns (run': seq<System>)
    requires Working(start, run, p, names)
    ensures IsOrderedRun(start, run') && Last(run') == After(Last(run), p, names)
    decreases |names|
  {
    hide OrderedStep, Initial, Last, Pulled, IsContent, Unnested, AfterOne;
    var s := Last(run);
    if names == [] {
      AfterNothing(s, p);
      run' := run + [After(s, p, [])];
      assert FinishStep(s, p, After(s, p, []));
      Extend(start, run, p, After(s, p, []));
    } else {
      var n, rest := names[0], names[1..];
      assert names == [n] + rest && n in names;
      PulledFront(s.nodes[p.0], s.nodes[p.1], n, rest);
      var between := Handled(start, run, p, n, rest);
      run' := WorkOff(start, between, p, rest);
      assert After(Last(between), p, rest) == After(s, p, names);
    }
  }

  /** One pull from start to end changes its puller, and nothing else. */
  ghost predicate OnlyPulled(s: System, p: Pair, s': System) {
    && p.0 < |s.nodes| == |s'.nodes|
    && s'.pulls == s.pulls[p := Finished]
    && (forall h: nat | h < |s.nodes| && h != p.0 :: s'.nodes[h] == s.nodes[h])
    && ContentNames(s.nodes[p.0]) <= ContentNames(s'.nodes[p.0])
  }

  lemma PullOne(start: seq<Objects>, run: seq<System>, p: Pair) returns (run': seq<System>, names: seq<Name>)
    requires Reached(start, run) && IsPair(start, p) && Last(run).pulls[p].NotStarted?
    ensures Ordered(names) && Enumerates(names, Last(run).nodes[p.1])
    ensures Reached(start, run') && OnlyPulled(Last(run), p, Last(run'))
    ensures Last(run') == After(Last(run), p, Truncated(names, PULL_LIMIT))
  {
    hide OrderedStep, Initial, Last, Ordered, Unnested, Union;
    var s := Last(run);
    names := SortedNames(ContentNames(s.nodes[p.1]));
    OrderedDistinct(names);
    var listed := Truncated(names, PULL_LIMIT);
    var a := s.(pulls := s.pulls[p := Todo(listed)]);
    assert ContentNames(start[p.1]) <= ContentNames(s.nodes[p.1]) && Unnested(s.nodes[p.1].Keys);
    assert Glimpse(names, start[p.1], s.nodes[p.1]);
    assert OrderedListing(start, s, p, a);
    Extend(start, run, p, a);
    assert forall n | n in listed :: n in names && n in ContentNames(s.nodes[p.1]);
    run' := WorkOff(start, run + [a], p, listed);
    assert After(a, p, listed) == After(s, p, listed);
    PulledKeeps(s.nodes[p.0], s.nodes[p.1], listed);
    QuietReached(start, run');
  }

  // ---- What a cut listing leaves out ----

  /** A node with so many names before `n` that its listings do not show `n`. */
  ghost predicate Late(objects: Objects, n: Name) {
    |NamesBefore(ContentNames(objects), n)| >= PULL_LIMIT
  }

  lemma SubsetSize<T>(a: set<T>, b: set<T>)
    requires a <= b
    ensures |a| <= |b|
  {
    assert b == a + (b - a);
  }

  lemma {:induction false} AtMostAsMany(s: set<Name>, names: seq<Name>)
    requires forall n | n in s :: n in names
    ensures |s| <= |names|
    decreases |names|
  {
    if names == [] {
      assert s == {};
    } else {
      var init, last := names[..|names| - 1], names[|names| - 1];
      assert names == init + [last];
      AtMostAsMany(s - {last}, init);
      assert s <= (s - {last}) + {last};
      SubsetSize(s, (s - {last}) + {last});
    }
  }

  lemma OrderBack(names: seq<Name>, n: Name, i: nat, j: nat)
    requires Ordered(names) && i < |names| && j < |names| && Before(names[j], n) && !Before(names[i], n)
    ensures j < i
  {
    hide Before;
    if i < j {
      BeforeTransitive(names[i], names[j], n);
    }
  }

  /** Then everything a listing shows stands before `n`. */
  lemma LateCut(names: seq<Name>, theirs: Objects, n: Name)
    requires Ordered(names) && Enumerates(names, theirs) && Late(theirs, n)
    ensures var seen := Truncated(names, PULL_LIMIT);
            |seen| == PULL_LIMIT && forall m | m in seen :: Before(m, n) && m in ContentNames(theirs)
  {
    hide Before, ContentNames, Ordered;
    var early := NamesBefore(ContentNames(theirs), n);
    AtMostAsMany(early, names);
    var seen := Truncated(names, PULL_LIMIT);
    forall i | 0 <= i < |seen|
      ensures Before(seen[i], n)
    {
      if !Before(names[i], n) {
        forall m | m in early
          ensures m in names[..i]
        {
          var j :| 0 <= j < |names| && names[j] == m;
          OrderBack(names, n, i, j);
          assert names[..i][j] == m;
        }
        AtMostAsMany(early, names[..i]);
      }
    }
    assert forall m | m in seen :: m in names;
  }

  /** A name that a pull need not bring: the peer has none, or too many before it. */
  lemma PullWithout(start: seq<Objects>, run: seq<System>, p: Pair, n: Name) returns (run': seq<System>)
    requires Reached(start, run) && IsPair(start, p) && Last(run).pulls[p].NotStarted?
    requires n !in Last(run).nodes[p.0] && (n !in Last(run).nodes[p.1] || Late(Last(run).nodes[p.1], n))
    ensures Reached(start, run') && OnlyPulled(Last(run), p, Last(run')) && n !in Last(run').nodes[p.0]
  {
    hide OrderedStep, Initial, Last, Unnested, Union, Before, Ordered, Late, Blocked;
    var names;
    run', names := PullOne(start, run, p);
    if n in Last(run).nodes[p.1] {
      LateCut(names, Last(run).nodes[p.1], n);
      BeforeTotal(n, n);
    }
  }

  lemma BeforeMonotone(names: set<Name>, m: Name, n: Name)
    requires Before(m, n)
    ensures |NamesBefore(names, m)| <= |NamesBefore(names, n)|
  {
    hide Before;
    forall l | l in NamesBefore(names, m)
      ensures l in NamesBefore(names, n)
    {
      BeforeTransitive(l, m, n);
    }
    SubsetSize(NamesBefore(names, m), NamesBefore(names, n));
  }

  lemma PulledHas(mine: Objects, theirs: Objects, seen: seq<Name>)
    requires forall m | m in ContentNames(theirs) :: !Blocked(mine, m)
    ensures forall m | m in seen && m in ContentNames(theirs) :: m in ContentNames(Pulled(mine, theirs, seen))
  {
    hide Blocked;
  }

  /** What stands before `n` at the peer arrives, or so much of it that the puller becomes late for `n` itself. */
  lemma GainedBefore(mine: Objects, theirs: Objects, names: seq<Name>, n: Name)
    requires Ordered(names) && Enumerates(names, theirs) && forall m | m in ContentNames(theirs) :: !Blocked(mine, m)
    ensures var after := Pulled(mine, theirs, Truncated(names, PULL_LIMIT));
            Late(after, n) || NamesBefore(ContentNames(theirs), n) <= ContentNames(after)
  {
    var seen := Truncated(names, PULL_LIMIT);
    var after := Pulled(mine, theirs, seen);
    PulledHas(mine, theirs, seen);
    hide Pulled, Blocked, Before, ContentNames, Ordered;
    if Late(theirs, n) {
      LateCut(names, theirs, n);
      OrderedDistinct(names);
      DistinctAtMost(seen, NamesBefore(ContentNames(after), n));
    } else {
      forall m | m in NamesBefore(ContentNames(theirs), n)
        ensures m in ContentNames(after)
      {
        BeforeMonotone(ContentNames(theirs), m, n);
        EarlyShown(names, ContentNames(theirs), m);
      }
    }
  }

  /** With no names below each other nothing is in the way of a pull. */
  lemma NoneBlocked(start: seq<Objects>, run: seq<System>, p: Pair)
    requires Reached(start, run) && IsPair(start, p) && Unnested(Union(start))
    ensures forall m | m in ContentNames(Last(run).nodes[p.1]) :: !Blocked(Last(run).nodes[p.0], m)
  {
    OrderedIsRun(start, run);
    RunInv(start, run);
    var s := Last(run);
    hide IsRun, IsOrderedRun, Last, Covered, OnTheWay, Blocked, Unnested, SureNames, Union;
    assert NodeOk(start, p.0, s.nodes[p.0]) && ContentNames(s.nodes[p.1]) <= Union(start);
    forall m | m in ContentNames(s.nodes[p.1])
      ensures !Blocked(s.nodes[p.0], m)
    {
      NothingInTheWay(start, p.0, s.nodes[p.0], m);
    }
  }

  lemma PullMuch(start: seq<Objects>, run: seq<System>, p: Pair, n: Name) returns (run': seq<System>)
    requires Reached(start, run) && IsPair(start, p) && Last(run).pulls[p].NotStarted? && Unnested(Union(start))
    ensures Reached(start, run') && OnlyPulled(Last(run), p, Last(run'))
    ensures Late(Last(run').nodes[p.0], n) ||
            NamesBefore(ContentNames(start[p.1]), n) <= ContentNames(Last(run').nodes[p.0])
  {
    NoneBlocked(start, run, p);
    assert ContentNames(start[p.1]) <= ContentNames(Last(run).nodes[p.1]);
    hide OrderedStep, Initial, Last, OnlyPulled, Quiet, Before, Ordered, Late, Blocked, ContentNames, Union, Unnested;
    var names;
    run', names := PullOne(start, run, p);
    GainedBefore(Last(run).nodes[p.0], Last(run).nodes[p.1], names, n);
  }

  // ---- Several pulls ----

  /** One node asks several others, and none of them brings `n`. */
  lemma {:induction false} Avoid(start: seq<Objects>, run: seq<System>, i: nat, n: Name, peers: set<nat>)
    returns (run': seq<System>)
    requires Reached(start, run) && i < |start| && n !in Last(run).nodes[i]
    requires forall j | j in peers ::
               j < |start| && j != i && Last(run).pulls[(i, j)].NotStarted? &&
               (n !in Last(run).nodes[j] || Late(Last(run).nodes[j], n))
    ensures Reached(start, run') && n !in Last(run').nodes[i]
    ensures forall h: nat | h < |start| && h != i :: Last(run').nodes[h] == Last(run).nodes[h]
    ensures forall p | p in Last(run).pulls ::
              Last(run').pulls[p] == if p.0 == i && p.1 in peers then Finished else Last(run).pulls[p]
    decreases |peers|
  {
    hide OrderedStep, Initial, Last, Late, Unnested, Union;
    if peers == {} {
      run' := run;
    } else {
      var j :| j in peers;
      assert IsPair(start, (i, j));
      var between := PullWithout(start, run, (i, j), n);
      run' := Avoid(start, between, i, n, peers - {j});
    }
  }

  lemma LateGrows(mine: Objects, more: Objects, n: Name)
    requires ContentNames(mine) <= ContentNames(more) && Late(mine, n)
    ensures Late(more, n)
  {
    hide Before, ContentNames;
    SubsetSize(NamesBefore(ContentNames(mine), n), NamesBefore(ContentNames(more), n));
  }

  /** A node asks several others and becomes late for `n`, or gets all their originals that stand before `n`. */
  lemma {:induction false} GrowOne(start: seq<Objects>, run: seq<System>, j: nat, n: Name, peers: set<nat>)
    returns (run': seq<System>)
    requires Reached(start, run) && j < |start| && Unnested(Union(start))
    requires forall k | k in peers :: k < |start| && k != j && Last(run).pulls[(j, k)].NotStarted?
    ensures Reached(start, run') && ContentNames(Last(run).nodes[j]) <= ContentNames(Last(run').nodes[j])
    ensures Late(Last(run').nodes[j], n) ||
            forall k | k in peers :: NamesBefore(ContentNames(start[k]), n) <= ContentNames(Last(run').nodes[j])
    ensures forall h: nat | h < |start| && h != j :: Last(run').nodes[h] == Last(run).nodes[h]
    ensures forall p | p in Last(run).pulls && p.0 != j :: Last(run').pulls[p] == Last(run).pulls[p]
    decreases |peers|
  {
    hide OrderedStep, Initial, Last, ContentNames, Late, NamesBefore, Union, Unnested;
    if peers == {} {
      run' := run;
    } else {
      var k :| k in peers;
      assert IsPair(start, (j, k));
      var between := PullMuch(start, run, (j, k), n);
      run' := GrowOne(start, between, j, n, peers - {k});
      if Late(Last(between).nodes[j], n) {
        LateGrows(Last(between).nodes[j], Last(run').nodes[j], n);
      }
    }
  }

  lemma LateEnough(start: seq<Objects>, s: System, j: nat, n: Name)
    requires Quiet(start, s) && j < |start| && !Early(start, n)
    requires Late(s.nodes[j], n) ||
             forall k: nat | k < |start| && k != j :: NamesBefore(ContentNames(start[k]), n) <= ContentNames(s.nodes[j])
    ensures Late(s.nodes[j], n)
  {
    hide Before, Unnested;
    if !Late(s.nodes[j], n) {
      assert ContentNames(start[j]) <= ContentNames(s.nodes[j]);
      forall m | m in NamesBefore(Union(start), n)
        ensures m in NamesBefore(ContentNames(s.nodes[j]), n)
      {
        var k: nat :| k < |start| && m in ContentNames(start[k]);
        assert m in NamesBefore(ContentNames(start[k]), n);
      }
      SubsetSize(NamesBefore(Union(start), n), NamesBefore(ContentNames(s.nodes[j]), n));
    }
  }

  lemma {:induction false} GrowAll(start: seq<Objects>, run: seq<System>, n: Name, holders: set<nat>)
    returns (run': seq<System>)
    requires Reached(start, run) && !Early(start, n) && Unnested(Union(start))
    requires forall j | j in holders ::
               j < |start| && forall k: nat | k < |start| && k != j :: Last(run).pulls[(j, k)].NotStarted?
    ensures Reached(start, run') && forall j | j in holders :: Late(Last(run').nodes[j], n)
    ensures forall h: nat | h < |start| && h !in holders :: Last(run').nodes[h] == Last(run).nodes[h]
    ensures forall p | p in Last(run).pulls && p.0 !in holders :: Last(run').pulls[p] == Last(run).pulls[p]
    decreases |holders|
  {
    hide OrderedStep, Initial, Last, ContentNames, Late, Early, NamesBefore, Union, Unnested;
    if holders == {} {
      run' := run;
    } else {
      var j :| j in holders;
      var others := set k: nat | k < |start| && IsPair(start, (j, k));
      var between := GrowOne(start, run, j, n, others);
      LateEnough(start, Last(between), j, n);
      run' := GrowAll(start, between, n, holders - {j});
    }
  }

  /** The pulls still to come; a node with none of them keeps what it has. */
  lemma {:induction false} FinishAll(start: seq<Objects>, run: seq<System>, left: set<Pair>) returns (run': seq<System>)
    requires Reached(start, run)
    requires forall p :: p in left <==> p in Last(run).pulls && Last(run).pulls[p].NotStarted?
    ensures Reached(start, run') && Done(Last(run'))
    ensures forall i: nat | i < |start| && (forall p | p in left :: p.0 != i) ::
              Last(run').nodes[i] == Last(run).nodes[i]
    decreases |left|
  {
    hide OrderedStep, Initial, Last, ContentNames, Union, Unnested;
    if left == {} {
      run' := run;
    } else {
      var p :| p in left;
      var between, _ := PullOne(start, run, p);
      run' := FinishAll(start, between, left - {p});
    }
  }

  lemma Begin(start: seq<Objects>) returns (run: seq<System>)
    requires forall i: nat | i < |start| :: Unnested(start[i].Keys)
    ensures Reached(start, run) && Last(run).nodes == start
    ensures forall p | p in Last(run).pulls :: Last(run).pulls[p].NotStarted?
  {
    var pulls: map<Pair, Phase> := map i, j | 0 <= i < |start| && 0 <= j < |start| && i != j :: (i, j) := NotStarted;
    forall p
      ensures p in pulls <==> IsPair(start, p)
    {
      assert p == (p.0, p.1);
    }
    run := [System(start, pulls)];
    hide Unnested;
    QuietReached(start, run);
  }

  // ---- The exact condition ----

  /** First the node asks those that lack the object. */
  lemma AskLackers(start: seq<Objects>, i: nat, n: Name, holders: set<nat>) returns (run: seq<System>)
    requires i < |start| && n !in start[i] && forall j: nat :: j in holders <==> j < |start| && n in start[j]
    requires forall j: nat | j < |start| :: Unnested(start[j].Keys)
    ensures Reached(start, run) && n !in Last(run).nodes[i]
    ensures forall j: nat | j < |start| && j != i :: Last(run).nodes[j] == start[j]
    ensures forall p | p in Last(run).pulls ::
              Last(run).pulls[p] == if p.0 == i && p.1 !in holders then Finished else NotStarted
  {
    var lackers := set j: nat | j < |start| && IsPair(start, (i, j)) && j !in holders;
    hide IsOrderedRun, Late, Unnested, Union;
    run := Begin(start);
    run := Avoid(start, run, i, n, lackers);
  }

  /** Then those that hold it grow too big to show it. */
  lemma HoldersGrow(start: seq<Objects>, i: nat, n: Name, holders: set<nat>) returns (run: seq<System>)
    requires i < |start| && n !in start[i] && !Early(start, n) && Unnested(Union(start))
    requires forall j: nat :: j in holders <==> j < |start| && n in start[j]
    requires forall j: nat | j < |start| :: Unnested(start[j].Keys)
    ensures Reached(start, run) && n !in Last(run).nodes[i] && forall j | j in holders :: Late(Last(run).nodes[j], n)
    ensures forall j: nat | j < |start| && j != i ::
              Last(run).pulls[(i, j)] == if j in holders then NotStarted else Finished
  {
    run := AskLackers(start, i, n, holders);
    hide IsOrderedRun, Last, ContentNames, Late, Early, Unnested, Union;
    forall j, k: nat | j in holders && k < |start| && k != j
      ensures (j, k) in Last(run).pulls && Last(run).pulls[(j, k)].NotStarted?
    {
      assert IsPair(start, (j, k));
    }
    run := GrowAll(start, run, n, holders);
    forall j: nat | j < |start| && j != i
      ensures (i, j) in Last(run).pulls
    {
      assert IsPair(start, (i, j));
    }
  }

  /** An object with as many names before it as a listing shows may stay away for good from any node that lacks it. */
  lemma LeftBehind(start: seq<Objects>, i: nat, n: Name) returns (run: seq<System>)
    requires i < |start| && n in Union(start) && n !in start[i] && !Early(start, n) && Unnested(Union(start))
    requires forall j: nat | j < |start| :: Unnested(start[j].Keys)
    ensures IsOrderedRun(start, run) && Done(Last(run)) && |Last(run).nodes| == |start| && n !in Last(run).nodes[i]
  {
    hide OrderedStep, Initial, Last, ContentNames, Late, Early, Union, Unnested;
    var holders := set j: nat | j < |start| && n in start[j];
    run := HoldersGrow(start, i, n, holders);
    run := Avoid(start, run, i, n, holders);
    forall p | p in Last(run).pulls && Last(run).pulls[p].NotStarted?
      ensures p.0 != i
    {
      assert p == (p.0, p.1) && IsPair(start, p);
    }
    run := FinishAll(start, run, set p | p in Last(run).pulls && Last(run).pulls[p].NotStarted?);
  }

  lemma NotBoth(objects: Objects, m: Name, n: Name)
    requires Unnested(objects.Keys) && Below(m, n)
    ensures m !in ContentNames(objects) || n !in ContentNames(objects)
  {
    assert m !in objects.Keys || n !in objects.Keys;
  }

  /** Names below each other never come together on one node. */
  lemma NestedApart(start: seq<Objects>) returns (run: seq<System>)
    requires !Unnested(Union(start)) && forall j: nat | j < |start| :: Unnested(start[j].Keys)
    ensures IsOrderedRun(start, run) && Done(Last(run)) && !Converged(start, Last(run).nodes)
  {
    var m, n :| m in Union(start) && n in Union(start) && Below(m, n);
    hide OrderedStep, Initial, Last;
    run := Begin(start);
    run := FinishAll(start, run, set p | p in Last(run).pulls && Last(run).pulls[p].NotStarted?);
    var s := Last(run);
    assert |start| > 0;
    assert Unnested(s.nodes[0].Keys);
    NotBoth(s.nodes[0], m, n);
  }

  /** Every object is early or everywhere, and none lies below another. */
  ghost predicate Convergent(start: seq<Objects>) {
    && Unnested(Union(start))
    && forall n, i: nat | n in Union(start) && i < |start| :: Early(start, n) || n in start[i]
  }

  lemma UnionContent(start: seq<Objects>, n: Name)
    requires n in Union(start)
    ensures IsContent(n)
  {
  }

  lemma ConvergentConverges(start: seq<Objects>, run: seq<System>)
    requires Convergent(start) && IsOrderedRun(start, run) && Done(Last(run))
    ensures Converged(start, Last(run).nodes)
  {
    OrderedRunInv(start, run);
    var s := Last(run);
    hide IsOrderedRun, Last, Unnested, Early, Union;
    forall i: nat | i < |start|
      ensures ContentNames(s.nodes[i]) == Union(start)
    {
      assert NodeOk(start, i, s.nodes[i]);
      WithinUnion(start, i, s.nodes[i]);
      forall n | n in Union(start)
        ensures n in ContentNames(s.nodes[i])
      {
        UnionContent(start, n);
        if Early(start, n) {
          AllFinished(start, EarlyNames(start), s, i, n);
        }
      }
    }
  }

  /** First-contact pulls between all pairs make all nodes hold the union whatever the schedule, exactly when every
      object has fewer names before it than a listing shows or is everywhere to begin with, and no name lies below
      another. */
  lemma ConvergenceIff(start: seq<Objects>)
    requires forall i: nat | i < |start| :: Unnested(start[i].Keys)
    ensures (forall run | IsOrderedRun(start, run) && Done(Last(run)) :: Converged(start, Last(run).nodes)) <==>
            Convergent(start)
  {
    hide OrderedStep, Initial, Unnested, Early, Union;
    if Convergent(start) {
      forall run | IsOrderedRun(start, run) && Done(Last(run))
        ensures Converged(start, Last(run).nodes)
      {
        ConvergentConverges(start, run);
      }
    } else if !Unnested(Union(start)) {
      var run := NestedApart(start);
      assert !Converged(start, Last(run).nodes);
    } else {
      var n, i: nat :| n in Union(start) && i < |start| && !Early(start, n) && n !in start[i];
      var run := LeftBehind(start, i, n);
      assert n !in ContentNames(Last(run).nodes[i]);
    }
  }

  ghost predicate SameNames(start: seq<Objects>) {
    forall i: nat, j: nat | i < |start| && j < |start| :: ContentNames(start[i]) == ContentNames(start[j])
  }

  /** So a union that fits one listing is enough, and so is starting with the same names. */
  lemma SmallOrSame(start: seq<Objects>)
    requires Unnested(Union(start)) && (|Union(start)| <= 1000 || SameNames(start))
    ensures Convergent(start)
  {
    hide Before, Unnested;
    forall n, i: nat | n in Union(start) && i < |start|
      ensures Early(start, n) || n in start[i]
    {
      if SameNames(start) {
        var j: nat :| j < |start| && n in ContentNames(start[j]);
        assert n in ContentNames(start[i]);
      } else {
        BeforeTotal(n, n);
        SubsetSize(NamesBefore(Union(start), n), Union(start) - {n});
      }
    }
  }
}
