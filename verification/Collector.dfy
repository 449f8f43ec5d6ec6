/** Garbage collection of expired objects across the file store, the metadata and the user index. */
module Collector {
  import opened Prelude
  import opened MapSums
  import opened Metadata

  datatype Stats = Stats(filesDeleted: int, bytesFreed: int, errors: int, totalRuns: int)

  /** The file store: what exists, and for which names removing fails although they exist. */
  datatype Files = Files(present: map<Name, Bytes>, stuck: set<Name>)

  predicate Removable(files: Files, n: Name) {
    n in files.present && n !in files.stuck
  }

  ghost function ExpiredNames(v: View, now: int): set<Name> {
    set n | n in v.objects && Expired(v.objects[n], now)
  }

  /** The expired objects whose file can be removed. */
  ghost function Collected(v: View, files: Files, now: int): set<Name> {
    set n | n in ExpiredNames(v, now) && Removable(files, n)
  }

  /** A view without some objects and their owners' index entries. */
  ghost function Without(v: View, names: set<Name>): View {
    View(v.objects - names, set e | e in v.index && !(e.1 in names && e.1 in v.objects && v.objects[e.1].userId == e.0))
  }

  lemma WithoutOneMore(v: View, names: set<Name>, n: Name)
    requires n !in names && n in v.objects
    ensures DeleteView(Without(v, names), n) == Without(v, names + {n})
  {
    var w := Without(v, names);
    assert w.objects[n] == v.objects[n];
    assert w.objects - {n} == v.objects - (names + {n});
    assert DeleteView(w, n).index == Without(v, names + {n}).index;
  }

  // ---- What a pass means ----

  /** After a pass a second one at the same time finds nothing more to remove, as long as the same removals fail. */
  lemma SecondPassIdle(v: View, files: Files, now: int)
    ensures var gone := Collected(v, files, now);
            Collected(Without(v, gone), files.(present := files.present - gone), now) == {}
  {
  }

  /** Passes compose: two of them, at whatever times, leave what one pass at the later time would have left. */
  lemma PassesCompose(v: View, files: Files, first: int, second: int)
    ensures var gone := Collected(v, files, first);
            var v', files' := Without(v, gone), files.(present := files.present - gone);
            var gone' := Collected(v', files', second);
            var all := Collected(v, files, Max(first, second));
            && gone + gone' == all && gone !! gone'
            && Without(v', gone') == Without(v, all)
            && files'.present - gone' == files.present - all
  {
    var gone := Collected(v, files, first);
    var v', files' := Without(v, gone), files.(present := files.present - gone);
    var gone' := Collected(v', files', second);
    var all := Collected(v, files, Max(first, second));
    assert gone + gone' == all;
    hide Collected;
    assert Without(v', gone').objects == Without(v, all).objects;
    assert Without(v', gone').index == Without(v, all).index;
  }

  /** A pass takes exactly the objects that have an expiry time before `now` and whose file can be removed; all others,
      those without an expiry time among them, stay as they are. */
  lemma PassLeaves(v: View, files: Files, now: int)
    ensures var w := Without(v, Collected(v, files, now));
            && (forall n | n in v.objects ::
                  n !in w.objects <==>
                    && v.objects[n].expiresAt.Some? && v.objects[n].expiresAt.value < now
                    && n in files.present && n !in files.stuck)
            && (forall n | n in w.objects :: n in v.objects && w.objects[n] == v.objects[n])
  {
  }

  lemma PassRemoves(v: View, files: Files, now: int)
    ensures var gone := Collected(v, files, now);
            && gone <= v.objects.Keys && (forall n | n in v.objects :: n !in Without(v, gone).objects <==> n in gone)
  {
  }

  // ---- Many passes ----

  /** A pass at a time, with the names whose files cannot be removed then. */
  datatype Pass = Pass(now: int, stuck: set<Name>)

  ghost function AfterPasses(v: View, present: map<Name, Bytes>, passes: seq<Pass>): (View, map<Name, Bytes>) {
    if passes == [] then (v, present) else
      var (w, left) := AfterPasses(v, present, passes[..|passes| - 1]);
      var pass := passes[|passes| - 1];
      var gone := Collected(w, Files(left, pass.stuck), pass.now);
      (Without(w, gone), left - gone)
  }

  /** An object stays through any passes exactly when its file was not there, or it has no expiry time, or each pass
      came no later than that time or could not remove the file. So it goes with the first later pass that can
      remove it. */
  lemma {:induction false} StaysIff(v: View, present: map<Name, Bytes>, passes: seq<Pass>, n: Name)
    requires n in v.objects
    ensures var (w, left) := AfterPasses(v, present, passes);
            && (n in w.objects <==>
                  || n !in present || v.objects[n].expiresAt.None?
                  || forall i | 0 <= i < |passes| ::
                       passes[i].now <= v.objects[n].expiresAt.value || n in passes[i].stuck)
            && (n in w.objects ==> w.objects[n] == v.objects[n] && (n in left <==> n in present))
  {
    if passes != [] {
      var init, pass := passes[..|passes| - 1], passes[|passes| - 1];
      StaysIff(v, present, init, n);
      var (w, left) := AfterPasses(v, present, init);
      PassLeaves(w, Files(left, pass.stuck), pass.now);
      assert forall i | 0 <= i < |init| :: init[i] == passes[i];
    }
  }

  /** What the index records for a user loses exactly the collected objects, and so does the listing as long as the
      index keys of existing objects are the user's own. */
  lemma ListingsAfterPass(v: View, names: set<Name>, userId: string)
    requires PlainView(v) && names <= v.objects.Keys
    ensures Indexed(Without(v, names), userId) == Indexed(v, userId) - names
    ensures Unmixed(v, userId) ==> Shown(Without(v, names), userId) == Shown(v, userId) - names
    ensures PlainView(Without(v, names))
    ensures IndexExact(v) ==> IndexExact(Without(v, names))
  {
    var w := Without(v, names);
    forall n | n in Indexed(v, userId) - names
      ensures n in Indexed(w, userId)
    {
      assert (userId, n) in w.index;
    }
    if Unmixed(v, userId) {
      UnmixedShows(v, userId);
      UnmixedShows(w, userId);
    }
    hide IndexKey;
    forall n | n in w.objects && w.objects[n].userId != ""
      ensures (w.objects[n].userId, n) in w.index
    {
      assert (v.objects[n].userId, n) in v.index;
    }
  }

  // ---- The loop of a pass ----

  ghost function NamesUpTo(metas: seq<ObjectMeta>, i: nat): set<Name>
    requires i <= |metas|
  {
    set j | 0 <= j < i :: NameOf(metas[j])
  }

  lemma NextName(metas: seq<ObjectMeta>, v: View, names: set<Name>, i: nat)
    requires ShowsExactly(metas, v, names) && i < |metas|
    ensures NameOf(metas[i]) in names && NameOf(metas[i]) in v.objects && metas[i] == v.objects[NameOf(metas[i])]
    ensures NameOf(metas[i]) !in NamesUpTo(metas, i)
    ensures NamesUpTo(metas, i + 1) == NamesUpTo(metas, i) + {NameOf(metas[i])}
  {
  }

  lemma AllNames(metas: seq<ObjectMeta>, v: View, names: set<Name>)
    requires ShowsExactly(metas, v, names)
    ensures NamesUpTo(metas, |metas|) == names
  {
    forall n | n in names
      ensures n in NamesUpTo(metas, |metas|)
    {
      var i :| 0 <= i < |metas| && metas[i] == v.objects[n];
      assert NameOf(metas[i]) == n;
    }
  }

  lemma StillThere(v: View, files: Files, names: set<Name>, n: Name)
    requires n !in names && n in v.objects
    ensures n in Without(v, names).objects
    ensures Removable(files.(present := files.present - names), n) <==> Removable(files, n)
  {
  }

  lemma FilesOneMore(files: Files, names: set<Name>, n: Name)
    ensures (files.present - names) - {n} == files.present - (names + {n})
  {
  }

  lemma WithoutNothing(v: View, files: Files)
    ensures Without(v, {}) == v && files.(present := files.present - {}) == files
    ensures Sum(SizesOf(v, {})) == 0
  {
    assert v.objects - {} == v.objects;
    assert SizesOf(v, {}) == map[];
  }

  lemma OneMoreSize(v: View, names: set<Name>, n: Name)
    requires n !in names && n in v.objects
    ensures Sum(SizesOf(v, names + {n})) == Sum(SizesOf(v, names)) + v.objects[n].size
  {
    SumPut(SizesOf(v, names), n, v.objects[n].size);
    assert SizesOf(v, names + {n}) == SizesOf(v, names)[n := v.objects[n].size];
  }

  /** After `i` objects of a pass: which are gone and which failed, and that stores and counters say so. */
  ghost predicate Swept(v: View, f: Files, expired: seq<ObjectMeta>, i: nat, gone: set<Name>, failed: set<Name>,
                        view: View, files: Files, deleted: int, bytes: int, errors: int)
    requires i <= |expired|
  {
    && gone !! failed && gone + failed == NamesUpTo(expired, i)
    && (forall n | n in gone :: Removable(f, n)) && (forall n | n in failed :: !Removable(f, n))
    && files == f.(present := f.present - gone) && view == Without(v, gone)
    && deleted == |gone| && errors == |failed| && bytes == Sum(SizesOf(v, gone))
  }

  lemma SweptNothing(v: View, f: Files, expired: seq<ObjectMeta>)
    ensures Swept(v, f, expired, 0, {}, {}, v, f, 0, 0, 0)
  {
    WithoutNothing(v, f);
  }

  lemma SweptRemoved(v: View, f: Files, expired: seq<ObjectMeta>, i: nat, gone: set<Name>, failed: set<Name>,
                     view: View, files: Files, deleted: int, bytes: int, errors: int)
    requires i < |expired| && Swept(v, f, expired, i, gone, failed, view, files, deleted, bytes, errors)
    requires var n := NameOf(expired[i]);
             && n !in NamesUpTo(expired, i) && NamesUpTo(expired, i + 1) == NamesUpTo(expired, i) + {n}
             && n in v.objects && expired[i] == v.objects[n] && Removable(f, n)
    ensures var n := NameOf(expired[i]);
            Swept(v, f, expired, i + 1, gone + {n}, failed, DeleteView(view, n), files.(present := files.present - {n}),
                  deleted + 1, bytes + expired[i].size, errors)
  {
    hide Removable, Without, SizesOf, Sum, DeleteView, NamesUpTo;
    var n := NameOf(expired[i]);
    WithoutOneMore(v, gone, n);
    OneMoreSize(v, gone, n);
    FilesOneMore(f, gone, n);
    assert n !in gone && n !in failed;
    assert |gone + {n}| == |gone| + 1;
    assert (gone + {n}) + failed == NamesUpTo(expired, i) + {n};
  }

  lemma SweptFailed(v: View, f: Files, expired: seq<ObjectMeta>, i: nat, gone: set<Name>, failed: set<Name>,
                    view: View, files: Files, deleted: int, bytes: int, errors: int)
    requires i < |expired| && Swept(v, f, expired, i, gone, failed, view, files, deleted, bytes, errors)
    requires var n := NameOf(expired[i]);
             && n !in NamesUpTo(expired, i) && NamesUpTo(expired, i + 1) == NamesUpTo(expired, i) + {n}
             && !Removable(f, n)
    ensures Swept(v, f, expired, i + 1, gone, failed + {NameOf(expired[i])}, view, files, deleted, bytes, errors + 1)
  {
    hide Removable, Without, SizesOf, Sum, NamesUpTo;
  }

  lemma SweptStep(v: View, f: Files, expired: seq<ObjectMeta>, names: set<Name>, i: nat, gone: set<Name>,
                  failed: set<Name>, view: View, files: Files, deleted: int, bytes: int, errors: int)
    requires ShowsExactly(expired, v, names) && i < |expired|
    requires Swept(v, f, expired, i, gone, failed, view, files, deleted, bytes, errors)
    ensures var n := NameOf(expired[i]);
            && n in view.objects
            && if Removable(files, n)
               then Swept(v, f, expired, i + 1, gone + {n}, failed, DeleteView(view, n),
                          files.(present := files.present - {n}), deleted + 1, bytes + expired[i].size, errors)
               else Swept(v, f, expired, i + 1, gone, failed + {n}, view, files, deleted, bytes, errors + 1)
  {
    var n := NameOf(expired[i]);
    NextName(expired, v, names, i);
    hide ShowsExactly, Removable, Without, SizesOf, Sum, DeleteView, NamesUpTo;
    StillThere(v, f, gone, n);
    if Removable(f, n) {
      SweptRemoved(v, f, expired, i, gone, failed, view, files, deleted, bytes, errors);
    } else {
      SweptFailed(v, f, expired, i, gone, failed, view, files, deleted, bytes, errors);
    }
  }

  lemma SweptAll(v: View, f: Files, expired: seq<ObjectMeta>, names: set<Name>, now: int, gone: set<Name>,
                 failed: set<Name>, view: View, files: Files, deleted: int, bytes: int, errors: int)
    requires ShowsExactly(expired, v, names) && names == ExpiredNames(v, now)
    requires Swept(v, f, expired, |expired|, gone, failed, view, files, deleted, bytes, errors)
    ensures gone == Collected(v, f, now) && failed == names - gone
    ensures files == f.(present := f.present - gone) && view == Without(v, gone)
    ensures deleted == |gone| && errors == |failed| && bytes == Sum(SizesOf(v, gone))
  {
    AllNames(expired, v, names);
    hide ShowsExactly, Removable, Without, SizesOf, Sum, NamesUpTo;
  }

  // ---- The collector ----

  class Collector {
    const metas: Metadata.Store
    var files: Files
    var dryRun: bool
    var stats: Stats
    ghost var view: View

    ghost predicate Valid()
      reads this, metas
    {
      Represents(metas.db, view)
    }

    constructor (metas: Metadata.Store, files: Files, dryRun: bool, ghost view: View)
      requires Represents(metas.db, view)
      ensures Valid() && this.metas == metas && this.files == files && this.dryRun == dryRun && this.view == view
      ensures stats == Stats(0, 0, 0, 0)
    {
      this.metas, this.files, this.dryRun, this.view := metas, files, dryRun, view;
      stats := Stats(0, 0, 0, 0);
    }

    /** Removes one file, if it is there and can be removed. */
    method DeleteFile(n: Name) returns (ok: bool)
      modifies this`files
      ensures ok <==> Removable(old(files), n)
      ensures files == if ok then old(files).(present := old(files).present - {n}) else old(files)
    {
      if n !in files.present || n in files.stuck {
        return false;
      }
      files := files.(present := files.present - {n});
      return true;
    }

    /** The loop of a dry pass. */
    method Report(expired: seq<ObjectMeta>) returns (bytes: int)
      ensures bytes == TotalSize(expired)
    {
      bytes := 0;
      for i := 0 to |expired|
        invariant bytes == TotalSize(expired[..i])
      {
        assert expired[..i + 1][..i] == expired[..i];
        bytes := bytes + expired[i].size;
      }
      assert expired[..|expired|] == expired;
    }

    /** One object of a real pass: its file, then its metadata. */
    method CollectOne(meta: ObjectMeta) returns (ok: bool)
      requires Valid() && NameOf(meta) in view.objects
      modifies this`files, this`view, metas
      ensures Valid()
      ensures ok <==> Removable(old(files), NameOf(meta))
      ensures files == if ok then old(files).(present := old(files).present - {NameOf(meta)}) else old(files)
      ensures view == if ok then DeleteView(old(view), NameOf(meta)) else old(view)
    {
      hide Represents;
      StoredUnaliased(metas.db, view, NameOf(meta));
      ok := DeleteFile(NameOf(meta));
      if !ok {
        return;
      }
      var _ := metas.Delete(meta.bucket, meta.key);
      view := DeleteView(view, NameOf(meta));
    }

    /** The loop of a real pass. */
    method Sweep(expired: seq<ObjectMeta>, ghost names: set<Name>, ghost now: int)
      returns (deleted: int, bytes: int, errors: int)
      requires Valid() && ShowsExactly(expired, view, names) && names == ExpiredNames(view, now)
      modifies this`files, this`view, metas
      ensures Valid()
      ensures var gone := Collected(old(view), old(files), now);
              && files == old(files).(present := old(files).present - gone)
              && view == Without(old(view), gone)
              && deleted == |gone| && bytes == Sum(SizesOf(old(view), gone)) && errors == |names - gone|
    {
      hide Represents, Swept, ShowsExactly;
      deleted, bytes, errors := 0, 0, 0;
      ghost var v, f := view, files;
      ghost var gone: set<Name>, failed: set<Name> := {}, {};
      SweptNothing(v, f, expired);
      for i := 0 to |expired|
        invariant Valid()
        invariant Swept(v, f, expired, i, gone, failed, view, files, deleted, bytes, errors)
      {
        var meta := expired[i];
        ghost var n := NameOf(meta);
        SweptStep(v, f, expired, names, i, gone, failed, view, files, deleted, bytes, errors);
        var ok := CollectOne(meta);
        if ok {
          gone := gone + {n};
          deleted := deleted + 1;
          bytes := bytes + meta.size;
        } else {
          failed := failed + {n};
          errors := errors + 1;
        }
      }
      SweptAll(v, f, expired, names, now, gone, failed, view, files, deleted, bytes, errors);
    }

    /** A dry pass changes neither store and reports every expired object. A real pass removes from the file store, the
        metadata and the index exactly the expired objects whose file could be removed; the counters report how many
        and how large they were, and how many failed. */
    method RunOnce(now: int)
      requires Valid()
      modifies this`files, this`stats, this`view, metas
      ensures Valid()
      ensures forall n | n in old(view.objects) ::
                n !in view.objects <==>
                  && !dryRun && old(view.objects)[n].expiresAt.Some? && old(view.objects)[n].expiresAt.value < now
                  && n in old(files.present) && n !in old(files.stuck)
      ensures forall n | n in old(files.present) ::
                n !in files.present <==> n in old(view.objects) && n !in view.objects
      ensures var expired, gone := ExpiredNames(old(view), now), Collected(old(view), old(files), now);
              if dryRun then
                && files == old(files) && view == old(view) && metas.db == old(metas.db)
                && stats == Stats(old(stats).filesDeleted + |expired|,
                                  old(stats).bytesFreed + Sum(SizesOf(old(view), expired)),
                                  old(stats).errors, old(stats).totalRuns + 1)
              else
                && files == old(files).(present := old(files).present - gone)
                && view == Without(old(view), gone)
                && stats == Stats(old(stats).filesDeleted + |gone|,
                                  old(stats).bytesFreed + Sum(SizesOf(old(view), gone)),
                                  old(stats).errors + |expired - gone|, old(stats).totalRuns + 1)
    {
      hide Represents, ShowsExactly, Records, Scan, Sum, SizesOf, TotalSize, Without, Collected;
      PassLeaves(view, files, now);
      PassRemoves(view, files, now);
      var expired := metas.ListExpired(now);
      ListExpiredShows(metas.db, view, now);
      ghost var names := ExpiredNames(view, now);
      assert names ==
             set n | n in view.objects && view.objects[n].expiresAt.Some? && view.objects[n].expiresAt.value < now;
      assert ShowsExactly(expired, view, names);
      if dryRun {
        var bytes := Report(expired);
        ListingTotal(expired, view, names);
        stats := Stats(stats.filesDeleted + |expired|, stats.bytesFreed + bytes, stats.errors, stats.totalRuns + 1);
      } else {
        var deleted, bytes, errors := Sweep(expired, names, now);
        stats := Stats(stats.filesDeleted + deleted, stats.bytesFreed + bytes, stats.errors + errors,
                       stats.totalRuns + 1);
      }
    }
  }
}
